/** Change-case documents, src/causure/models.py: parsers that collect issues,
    the printer, and the round trip that makes the document digest canonical. */
module CaseDocument {
  import opened Vocabulary
  import opened Sequences
  import opened Paths
  import opened JsonTree

  datatype Problem =
    | NotAnObject | MissingKeys | UnknownKeys | NotAString | Empty | NotABoolean | NotAnInteger
    | TooSmall | TooLarge | NotANumber | NotInEnum | NotAnArray | TooFewItems | Duplicates | BadVersion | BadCaseId | BadTimestamp

  /** A parsed value with the issues found on the way; with issues the value is a stand-in. */
  datatype Parsed<+T> = Parsed(value: T, issues: seq<Problem>)

  // ---------------------------------------------------------------- entities

  datatype Incident = Incident(
    claimed: string, expected: string, observed: string, severity: string, requirement: string, sources: seq<string>)

  datatype Oracle = Oracle(kind: string, description: string, independent: bool, evidence: seq<string>)

  /** passed: reproduced, or failure resolved. */
  datatype Trial = Trial(id: string, passed: bool, evidence: string)

  datatype Verification = Verification(oracle: Oracle, trials: seq<Trial>)

  datatype Intervention = Intervention(description: string, isolated: bool, constants: seq<string>, trials: seq<Trial>)

  datatype Hypothesis = Hypothesis(
    component: string, confidence: real, evidence: seq<string>, intervention: Option<Intervention>)

  datatype Proposal = Proposal(
    component: string, summary: string, prediction: string, unaffected: seq<string>, risks: seq<string>,
    surfaces: int, changeRef: string)

  datatype NullHypothesis = NullHypothesis(statement: string, against: seq<string>)

  datatype Control = Control(id: string, kind: string, critical: bool, baseline: bool, candidate: bool, evidence: string)

  datatype Snapshot = Snapshot(latency: Option<real>, cost: Option<real>, tokens: Option<real>)

  datatype Metrics = Metrics(baseline: Snapshot, candidate: Snapshot)

  datatype Validation = Validation(cases: seq<Control>, metrics: Option<Metrics>)

  datatype CaseRecord = CaseRecord(
    version: string, caseId: string, title: string, createdAt: string,
    incident: Incident, verification: Verification, hypotheses: seq<Hypothesis>, proposal: Proposal,
    nullHypothesis: NullHypothesis, validation: Validation)

  // ---------------------------------------------------------------- enumerations and keys

  function Severities(): seq<string> { ["low", "medium", "high", "critical"] }

  function Requirements(): seq<string> { ["clear", "ambiguous", "conflicting", "unknown"] }

  function OracleKinds(): seq<string> { ["exact_match", "executable", "policy", "human_label", "consensus", "custom"] }

  function ControlKinds(): seq<string> { ["positive", "negative", "regression"] }

  function CaseVersion(): string { "1.0" }

  // ---------------------------------------------------------------- scalar parsers

  function Get(fields: map<string, Json>, key: string): Json {
    if key in fields then fields[key] else JNull
  }

  /** _object: the fields, or none of them. The issues of all missing keys count
      as one here, and so do those of all unknown keys. */
  function ObjectIn(value: Json, required: set<string>, optional: set<string>): Parsed<map<string, Json>> {
    if !value.JObject? then Parsed(map[], [NotAnObject])
    else Parsed(value.fields,
                (if required <= value.fields.Keys then [] else [MissingKeys])
                + (if value.fields.Keys <= required + optional then [] else [UnknownKeys]))
  }

  function StringIn(value: Json): Parsed<string> {
    if !value.JString? then Parsed("", [NotAString])
    else Parsed(Strip(value.s), if Strip(value.s) == "" then [Empty] else [])
  }

  function BooleanIn(value: Json): Parsed<bool> {
    if value.JBool? then Parsed(value.b, []) else Parsed(false, [NotABoolean])
  }

  function IntegerIn(value: Json, minimum: int): Parsed<int> {
    if !value.JInt? then Parsed(minimum, [NotAnInteger])
    else Parsed(value.n, if value.n < minimum then [TooSmall] else [])
  }

  function NumberIn(value: Json, maximum: Option<real>): Parsed<real> {
    if !value.JInt? && !value.JReal? then Parsed(0.0, [NotANumber]) else
    var r := if value.JInt? then value.n as real else value.r;
    Parsed(r, (if r < 0.0 then [TooSmall] else []) + (if maximum.Some? && r > maximum.value then [TooLarge] else []))
  }

  function EnumIn(value: Json, names: seq<string>): Parsed<string>
    requires names != []
  {
    if value.JString? && value.s in names then Parsed(value.s, []) else Parsed(names[0], [NotInEnum])
  }

  predicate NoDuplicates(s: seq<string>) {
    forall i, j :: 0 <= i < j < |s| ==> s[i] != s[j]
  }

  /** One parser over every item of a list. */
  function AllIn<T>(items: seq<Json>, parse: Json -> Parsed<T>): Parsed<seq<T>> {
    if items == [] then Parsed([], []) else
    var front, last := AllIn(items[..|items| - 1], parse), parse(items[|items| - 1]);
    Parsed(front.value + [last.value], front.issues + last.issues)
  }

  function ItemsIn(value: Json): Parsed<seq<Json>> {
    if value.JArray? then Parsed(value.items, []) else Parsed([], [NotAnArray])
  }

  function DuplicatesIn(s: seq<string>): seq<Problem> {
    if NoDuplicates(s) then [] else [Duplicates]
  }

  function StringsIn(value: Json, minimum: int): Parsed<seq<string>> {
    if !value.JArray? then Parsed([], [NotAnArray]) else
    var strings := AllIn(value.items, StringIn);
    Parsed(strings.value, (if |value.items| < minimum then [TooFewItems] else []) + strings.issues + DuplicatesIn(strings.value))
  }

  /** The issue list that the section parsers share and append to. */
  class IssueList {
    var issues: seq<Problem>

    constructor ()
      ensures issues == []
    {
      issues := [];
    }

    /** The loops that parse the items of an array one after the other. */
    method ParseItems<T>(items: seq<Json>, parse: Json -> Parsed<T>) returns (values: seq<T>)
      modifies this
      ensures values == AllIn(items, parse).value
      ensures issues == old(issues) + AllIn(items, parse).issues
    {
      values := [];
      for i := 0 to |items|
        invariant values == AllIn(items[..i], parse).value
        invariant issues == old(issues) + AllIn(items[..i], parse).issues
      {
        assert items[..i + 1][..i] == items[..i];
        var item := parse(items[i]);
        issues := issues + item.issues;
        values := values + [item.value];
      }
      assert items[..|items|] == items;
    }

    /** _string_list. */
    method ParseStrings(value: Json, minimum: int) returns (strings: seq<string>)
      modifies this
      ensures strings == StringsIn(value, minimum).value
      ensures issues == old(issues) + StringsIn(value, minimum).issues
    {
      hide AllIn, NoDuplicates;
      if !value.JArray? {
        issues := issues + [NotAnArray];
        return [];
      }
      if |value.items| < minimum {
        issues := issues + [TooFewItems];
      }
      strings := ParseItems(value.items, StringIn);
      if !NoDuplicates(strings) {
        issues := issues + [Duplicates];
      }
    }
  }

  // ---------------------------------------------------------------- clean lists

  lemma {:induction false} AllClean<T>(items: seq<Json>, parse: Json -> Parsed<T>)
    requires AllIn(items, parse).issues == []
    ensures |AllIn(items, parse).value| == |items|
    ensures forall i :: 0 <= i < |items| ==> parse(items[i]) == Parsed(AllIn(items, parse).value[i], [])
  {
    if items != [] {
      AllClean(items[..|items| - 1], parse);
    }
  }

  /** A printer that each item's parser undoes is undone on lists. */
  lemma {:induction false} AllPrinted<T>(values: seq<T>, printer: T -> Json, parse: Json -> Parsed<T>)
    requires forall i :: 0 <= i < |values| ==> parse(printer(values[i])) == Parsed(values[i], [])
    ensures AllIn(Map(values, printer), parse) == Parsed(values, [])
  {
    if values != [] {
      var front, x := values[..|values| - 1], values[|values| - 1];
      assert values == front + [x];
      AllPrinted(front, printer, parse);
      var items := Map(values, printer);
      assert items[..|values| - 1] == Map(front, printer);
    }
  }

  function PrintText(s: string): Json { JString(s) }

  predicate CleanString(s: string) { s != "" && Strip(s) == s }

  ghost predicate CleanStrings(s: seq<string>, minimum: int) {
    |s| >= minimum && NoDuplicates(s) && forall i :: 0 <= i < |s| ==> CleanString(s[i])
  }

  lemma StringIsClean(value: Json)
    requires StringIn(value).issues == []
    ensures CleanString(StringIn(value).value)
  {
    hide Strip;
    StripIdempotent(value.s);
  }

  lemma PrintedString(s: string)
    requires CleanString(s)
    ensures StringIn(JString(s)) == Parsed(s, [])
  {
    hide Strip;
  }

  lemma StringsAreClean(value: Json, minimum: int)
    requires StringsIn(value, minimum).issues == []
    ensures CleanStrings(StringsIn(value, minimum).value, minimum)
  {
    hide StringIn, CleanString;
    AllClean(value.items, StringIn);
    var strings := AllIn(value.items, StringIn).value;
    forall i | 0 <= i < |strings| ensures CleanString(strings[i]) {
      StringIsClean(value.items[i]);
    }
  }

  lemma PrintedStrings(s: seq<string>, minimum: int)
    requires CleanStrings(s, minimum)
    ensures StringsIn(JArray(Map(s, PrintText)), minimum) == Parsed(s, [])
  {
    hide StringIn, CleanString, AllIn;
    forall i | 0 <= i < |s| ensures StringIn(PrintText(s[i])) == Parsed(s[i], []) {
      PrintedString(s[i]);
    }
    AllPrinted(s, PrintText, StringIn);
  }

  // ---------------------------------------------------------------- sections

  predicate OneOf(s: string, names: seq<string>) { s in names }

  lemma EnumIsClean(value: Json, names: seq<string>)
    requires names != [] && EnumIn(value, names).issues == []
    ensures OneOf(EnumIn(value, names).value, names)
  {
  }

  lemma PrintedEnum(s: string, names: seq<string>)
    requires names != [] && OneOf(s, names)
    ensures EnumIn(JString(s), names) == Parsed(s, [])
  {
  }

  // -- incident

  function IncidentKeys(): set<string> {
    {"claimed_failure", "expected_behavior", "observed_behavior", "severity", "requirement_status", "source_refs"}
  }

  function IncidentFrom(claimed: Json, expected: Json, observed: Json, severity: Json, requirement: Json, sources: Json): Parsed<Incident> {
    var a, b, c := StringIn(claimed), StringIn(expected), StringIn(observed);
    var d, e, f := EnumIn(severity, Severities()), EnumIn(requirement, Requirements()), StringsIn(sources, 1);
    Parsed(Incident(a.value, b.value, c.value, d.value, e.value, f.value),
           a.issues + b.issues + c.issues + d.issues + e.issues + f.issues)
  }

  function ParseIncident(value: Json): Parsed<Incident> {
    var o := ObjectIn(value, IncidentKeys(), {});
    var i := IncidentFrom(Get(o.value, "claimed_failure"), Get(o.value, "expected_behavior"), Get(o.value, "observed_behavior"),
                          Get(o.value, "severity"), Get(o.value, "requirement_status"), Get(o.value, "source_refs"));
    Parsed(i.value, o.issues + i.issues)
  }

  function PrintIncident(i: Incident): Json {
    JObject(map["claimed_failure" := JString(i.claimed), "expected_behavior" := JString(i.expected),
                "observed_behavior" := JString(i.observed), "severity" := JString(i.severity),
                "requirement_status" := JString(i.requirement), "source_refs" := JArray(Map(i.sources, PrintText))])
  }

  ghost predicate CleanIncident(i: Incident) {
    && CleanString(i.claimed) && CleanString(i.expected) && CleanString(i.observed)
    && OneOf(i.severity, Severities()) && OneOf(i.requirement, Requirements()) && CleanStrings(i.sources, 1)
  }

  lemma IncidentIsClean(value: Json)
    requires ParseIncident(value).issues == []
    ensures CleanIncident(ParseIncident(value).value)
  {
    hide StringIn, StringsIn, EnumIn, CleanString, CleanStrings, OneOf, ObjectIn, IncidentKeys, Severities, Requirements;
    var f := ObjectIn(value, IncidentKeys(), {}).value;
    StringIsClean(Get(f, "claimed_failure"));
    StringIsClean(Get(f, "expected_behavior"));
    StringIsClean(Get(f, "observed_behavior"));
    EnumsExist();
    EnumIsClean(Get(f, "severity"), Severities());
    EnumIsClean(Get(f, "requirement_status"), Requirements());
    StringsAreClean(Get(f, "source_refs"), 1);
  }

  lemma EnumsExist()
    ensures Severities() != [] && Requirements() != [] && OracleKinds() != [] && ControlKinds() != [] && ComponentNames() != []
  {
  }

  lemma IncidentFields(i: Incident)
    ensures ParseIncident(PrintIncident(i)) == IncidentFrom(
              JString(i.claimed), JString(i.expected), JString(i.observed), JString(i.severity), JString(i.requirement),
              JArray(Map(i.sources, PrintText)))
  {
    hide IncidentFrom, Map;
    assert PrintIncident(i).fields.Keys == IncidentKeys();
  }

  lemma PrintedIncident(i: Incident)
    requires CleanIncident(i)
    ensures ParseIncident(PrintIncident(i)) == Parsed(i, [])
  {
    hide StringIn, StringsIn, EnumIn, CleanString, CleanStrings, OneOf, ParseIncident, PrintIncident, Severities, Requirements;
    IncidentFields(i);
    PrintedString(i.claimed);
    PrintedString(i.expected);
    PrintedString(i.observed);
    EnumsExist();
    PrintedEnum(i.severity, Severities());
    PrintedEnum(i.requirement, Requirements());
    PrintedStrings(i.sources, 1);
  }

  // -- numbers, tables and optional parts

  lemma IntegerIsClean(value: Json, minimum: int)
    requires IntegerIn(value, minimum).issues == []
    ensures IntegerIn(value, minimum).value >= minimum
  {
  }

  predicate CleanNumber(r: real, maximum: Option<real>) {
    0.0 <= r && (maximum.Some? ==> r <= maximum.value)
  }

  lemma NumberIsClean(value: Json, maximum: Option<real>)
    requires NumberIn(value, maximum).issues == []
    ensures CleanNumber(NumberIn(value, maximum).value, maximum)
  {
  }

  lemma PrintedNumber(r: real, maximum: Option<real>)
    requires CleanNumber(r, maximum)
    ensures NumberIn(JReal(r), maximum) == Parsed(r, [])
  {
  }

  /** An array of records whose names have to be unique. */
  function RowsIn<T>(value: Json, parse: Json -> Parsed<T>, name: T -> string): Parsed<seq<T>> {
    var items := ItemsIn(value);
    var rows := AllIn(items.value, parse);
    Parsed(rows.value, items.issues + rows.issues + DuplicatesIn(Map(rows.value, name)))
  }

  ghost predicate CleanRows<T>(s: seq<T>, clean: T -> bool, name: T -> string) {
    NoDuplicates(Map(s, name)) && forall i :: 0 <= i < |s| ==> clean(s[i])
  }

  lemma RowsAreClean<T>(value: Json, parse: Json -> Parsed<T>, name: T -> string, clean: T -> bool)
    requires RowsIn(value, parse, name).issues == []
    requires forall j: Json :: parse(j).issues == [] ==> clean(parse(j).value)
    ensures CleanRows(RowsIn(value, parse, name).value, clean, name)
  {
    AllClean(ItemsIn(value).value, parse);
  }

  lemma PrintedRows<T(!new)>(s: seq<T>, printer: T -> Json, parse: Json -> Parsed<T>, name: T -> string, clean: T -> bool)
    requires CleanRows(s, clean, name)
    requires forall x :: clean(x) ==> parse(printer(x)) == Parsed(x, [])
    ensures RowsIn(JArray(Map(s, printer)), parse, name) == Parsed(s, [])
  {
    AllPrinted(s, printer, parse);
  }

  /** Absent and null both mean none. */
  function OptionalIn<T>(value: Json, parse: Json -> Parsed<T>): Parsed<Option<T>> {
    if value == JNull then Parsed(None, []) else Parsed(Some(parse(value).value), parse(value).issues)
  }

  function PrintOptional<T>(value: Option<T>, printer: T -> Json): Json {
    if value.None? then JNull else printer(value.value)
  }

  // -- oracle

  function OracleKeys(): set<string> {
    {"kind", "description", "independent", "evidence_refs"}
  }

  function OracleFrom(kind: Json, description: Json, independent: Json, evidence: Json): Parsed<Oracle> {
    var a := EnumIn(kind, OracleKinds());
    var b := StringIn(description);
    var c := BooleanIn(independent);
    var d := StringsIn(evidence, 1);
    Parsed(Oracle(a.value, b.value, c.value, d.value),
           a.issues + b.issues + c.issues + d.issues)
  }

  function ParseOracle(value: Json): Parsed<Oracle> {
    var o := ObjectIn(value, OracleKeys(), {});
    var r := OracleFrom(
      Get(o.value, "kind"),
      Get(o.value, "description"),
      Get(o.value, "independent"),
      Get(o.value, "evidence_refs"));
    Parsed(r.value, o.issues + r.issues)
  }

  function PrintOracle(r: Oracle): Json {
    JObject(map[
      "kind" := JString(r.kind),
      "description" := JString(r.description),
      "independent" := JBool(r.independent),
      "evidence_refs" := JArray(Map(r.evidence, PrintText))])
  }

  ghost predicate CleanOracle(r: Oracle) {
    && OneOf(r.kind, OracleKinds())
    && CleanString(r.description)
    && CleanStrings(r.evidence, 1)
  }

  lemma OracleIsClean(value: Json)
    requires ParseOracle(value).issues == []
    ensures CleanOracle(ParseOracle(value).value)
  {
    hide CleanString, CleanStrings, EnumIn, OneOf, OracleKinds, StringIn, StringsIn, ObjectIn, OracleKeys;
    var f := ObjectIn(value, OracleKeys(), {}).value;
    EnumsExist();
    EnumIsClean(Get(f, "kind"), OracleKinds());
    StringIsClean(Get(f, "description"));
    StringsAreClean(Get(f, "evidence_refs"), 1);
  }

  lemma OracleFields(r: Oracle)
    ensures ParseOracle(PrintOracle(r)) == OracleFrom(
              JString(r.kind),
              JString(r.description),
              JBool(r.independent),
              JArray(Map(r.evidence, PrintText)))
  {
    hide OracleFrom, Map;
    assert PrintOracle(r).fields.Keys == OracleKeys();
  }

  lemma PrintedOracle(r: Oracle)
    requires CleanOracle(r)
    ensures ParseOracle(PrintOracle(r)) == Parsed(r, [])
  {
    hide CleanString, CleanStrings, EnumIn, OneOf, OracleKinds, StringIn, StringsIn, ParseOracle, PrintOracle;
    OracleFields(r);
    EnumsExist();
    PrintedEnum(r.kind, OracleKinds());
    PrintedString(r.description);
    PrintedStrings(r.evidence, 1);
  }

  // -- trials: a reproduction trial and an intervention trial differ in the key of the outcome

  const REPRODUCED := "reproduced"

  const RESOLVED := "failure_resolved"

  predicate IsOutcomeKey(outcome: string) { outcome != "id" && outcome != "evidence_ref" }

  function TrialKeys(outcome: string): set<string> {
    {"id", outcome, "evidence_ref"}
  }

  function TrialFrom(id: Json, passed: Json, evidence: Json): Parsed<Trial> {
    var a := StringIn(id);
    var b := BooleanIn(passed);
    var c := StringIn(evidence);
    Parsed(Trial(a.value, b.value, c.value),
           a.issues + b.issues + c.issues)
  }

  function TrialIn(value: Json, outcome: string): Parsed<Trial> {
    var o := ObjectIn(value, TrialKeys(outcome), {});
    var r := TrialFrom(
      Get(o.value, "id"),
      Get(o.value, outcome),
      Get(o.value, "evidence_ref"));
    Parsed(r.value, o.issues + r.issues)
  }

  function ParseTrial(outcome: string): Json -> Parsed<Trial> {
    value => TrialIn(value, outcome)
  }

  function TrialOut(r: Trial, outcome: string): Json {
    JObject(map[
      "id" := JString(r.id),
      outcome := JBool(r.passed),
      "evidence_ref" := JString(r.evidence)])
  }

  function PrintTrial(outcome: string): Trial -> Json {
    r => TrialOut(r, outcome)
  }

  ghost predicate CleanTrial(r: Trial) {
    && CleanString(r.id)
    && CleanString(r.evidence)
  }

  lemma TrialIsClean(value: Json, outcome: string)
    requires TrialIn(value, outcome).issues == []
    ensures CleanTrial(TrialIn(value, outcome).value)
  {
    hide CleanString, StringIn, ObjectIn, TrialKeys;
    var f := ObjectIn(value, TrialKeys(outcome), {}).value;
    StringIsClean(Get(f, "id"));
    StringIsClean(Get(f, "evidence_ref"));
  }

  lemma TrialFields(r: Trial, outcome: string)
    requires IsOutcomeKey(outcome)
    ensures TrialIn(TrialOut(r, outcome), outcome) == TrialFrom(
              JString(r.id),
              JBool(r.passed),
              JString(r.evidence))
  {
    hide TrialFrom, Map;
    assert TrialOut(r, outcome).fields.Keys == TrialKeys(outcome);
  }

  lemma PrintedTrial(r: Trial, outcome: string)
    requires CleanTrial(r) && IsOutcomeKey(outcome)
    ensures TrialIn(TrialOut(r, outcome), outcome) == Parsed(r, [])
  {
    hide CleanString, StringIn, TrialIn, TrialOut;
    TrialFields(r, outcome);
    PrintedString(r.id);
    PrintedString(r.evidence);
  }

  function TrialId(t: Trial): string { t.id }

  lemma TrialsAreClean(outcome: string)
    requires IsOutcomeKey(outcome)
    ensures forall j: Json :: ParseTrial(outcome)(j).issues == [] ==> CleanTrial(ParseTrial(outcome)(j).value)
    ensures forall t :: CleanTrial(t) ==> ParseTrial(outcome)(PrintTrial(outcome)(t)) == Parsed(t, [])
  {
    hide TrialIn, TrialOut, CleanTrial;
    forall j: Json | ParseTrial(outcome)(j).issues == [] ensures CleanTrial(ParseTrial(outcome)(j).value) { TrialIsClean(j, outcome); }
    forall t | CleanTrial(t) ensures ParseTrial(outcome)(PrintTrial(outcome)(t)) == Parsed(t, []) { PrintedTrial(t, outcome); }
  }

  // -- verification

  function VerificationKeys(): set<string> {
    {"oracle", "reproduction_trials"}
  }

  function VerificationFrom(oracle: Json, trials: Json): Parsed<Verification> {
    var a := ParseOracle(oracle);
    var b := RowsIn(trials, ParseTrial(REPRODUCED), TrialId);
    Parsed(Verification(a.value, b.value),
           a.issues + b.issues)
  }

  function ParseVerification(value: Json): Parsed<Verification> {
    var o := ObjectIn(value, VerificationKeys(), {});
    var r := VerificationFrom(
      Get(o.value, "oracle"),
      Get(o.value, "reproduction_trials"));
    Parsed(r.value, o.issues + r.issues)
  }

  function PrintVerification(r: Verification): Json {
    JObject(map[
      "oracle" := PrintOracle(r.oracle),
      "reproduction_trials" := JArray(Map(r.trials, PrintTrial(REPRODUCED)))])
  }

  ghost predicate CleanVerification(r: Verification) {
    && CleanOracle(r.oracle)
    && CleanRows(r.trials, CleanTrial, TrialId)
  }

  lemma VerificationIsClean(value: Json)
    requires ParseVerification(value).issues == []
    ensures CleanVerification(ParseVerification(value).value)
  {
    hide CleanOracle, CleanRows, ParseOracle, RowsIn, ObjectIn, VerificationKeys;
    var f := ObjectIn(value, VerificationKeys(), {}).value;
    OracleIsClean(Get(f, "oracle"));
    TrialsAreClean(REPRODUCED);
    RowsAreClean(Get(f, "reproduction_trials"), ParseTrial(REPRODUCED), TrialId, CleanTrial);
  }

  lemma VerificationFields(r: Verification)
    ensures ParseVerification(PrintVerification(r)) == VerificationFrom(
              PrintOracle(r.oracle),
              JArray(Map(r.trials, PrintTrial(REPRODUCED))))
  {
    hide VerificationFrom, Map, PrintOracle;
    assert PrintVerification(r).fields.Keys == VerificationKeys();
  }

  lemma PrintedVerification(r: Verification)
    requires CleanVerification(r)
    ensures ParseVerification(PrintVerification(r)) == Parsed(r, [])
  {
    hide CleanOracle, CleanRows, ParseOracle, RowsIn, ParseVerification, PrintVerification;
    VerificationFields(r);
    PrintedOracle(r.oracle);
    TrialsAreClean(REPRODUCED);
    PrintedRows(r.trials, PrintTrial(REPRODUCED), ParseTrial(REPRODUCED), TrialId, CleanTrial);
  }

  // -- intervention

  function InterventionKeys(): set<string> {
    {"description", "isolated", "held_constant", "trials"}
  }

  function InterventionFrom(description: Json, isolated: Json, constants: Json, trials: Json): Parsed<Intervention> {
    var a := StringIn(description);
    var b := BooleanIn(isolated);
    var c := StringsIn(constants, 1);
    var d := RowsIn(trials, ParseTrial(RESOLVED), TrialId);
    Parsed(Intervention(a.value, b.value, c.value, d.value),
           a.issues + b.issues + c.issues + d.issues)
  }

  function ParseIntervention(value: Json): Parsed<Intervention> {
    var o := ObjectIn(value, InterventionKeys(), {});
    var r := InterventionFrom(
      Get(o.value, "description"),
      Get(o.value, "isolated"),
      Get(o.value, "held_constant"),
      Get(o.value, "trials"));
    Parsed(r.value, o.issues + r.issues)
  }

  function PrintIntervention(r: Intervention): Json {
    JObject(map[
      "description" := JString(r.description),
      "isolated" := JBool(r.isolated),
      "held_constant" := JArray(Map(r.constants, PrintText)),
      "trials" := JArray(Map(r.trials, PrintTrial(RESOLVED)))])
  }

  ghost predicate CleanIntervention(r: Intervention) {
    && CleanString(r.description)
    && CleanStrings(r.constants, 1)
    && CleanRows(r.trials, CleanTrial, TrialId)
  }

  lemma InterventionIsClean(value: Json)
    requires ParseIntervention(value).issues == []
    ensures CleanIntervention(ParseIntervention(value).value)
  {
    hide CleanRows, CleanString, CleanStrings, RowsIn, StringIn, StringsIn, ObjectIn, InterventionKeys;
    var f := ObjectIn(value, InterventionKeys(), {}).value;
    StringIsClean(Get(f, "description"));
    StringsAreClean(Get(f, "held_constant"), 1);
    TrialsAreClean(RESOLVED);
    RowsAreClean(Get(f, "trials"), ParseTrial(RESOLVED), TrialId, CleanTrial);
  }

  lemma InterventionFields(r: Intervention)
    ensures ParseIntervention(PrintIntervention(r)) == InterventionFrom(
              JString(r.description),
              JBool(r.isolated),
              JArray(Map(r.constants, PrintText)),
              JArray(Map(r.trials, PrintTrial(RESOLVED))))
  {
    hide InterventionFrom, Map;
    assert PrintIntervention(r).fields.Keys == InterventionKeys();
  }

  lemma PrintedIntervention(r: Intervention)
    requires CleanIntervention(r)
    ensures ParseIntervention(PrintIntervention(r)) == Parsed(r, [])
  {
    hide CleanRows, CleanString, CleanStrings, RowsIn, StringIn, StringsIn, ParseIntervention, PrintIntervention;
    InterventionFields(r);
    PrintedString(r.description);
    PrintedStrings(r.constants, 1);
    TrialsAreClean(RESOLVED);
    PrintedRows(r.trials, PrintTrial(RESOLVED), ParseTrial(RESOLVED), TrialId, CleanTrial);
  }

  // -- proposed change

  function ProposalKeys(): set<string> {
    {"component", "summary", "prediction", "expected_unaffected_behaviors", "known_risks", "changed_surface_count", "change_ref"}
  }

  function ProposalFrom(component: Json, summary: Json, prediction: Json, unaffected: Json, risks: Json,
                        surfaces: Json, changeRef: Json): Parsed<Proposal> {
    var a := EnumIn(component, ComponentNames());
    var b := StringIn(summary);
    var c := StringIn(prediction);
    var d := StringsIn(unaffected, 1);
    var e := StringsIn(risks, 0);
    var f := IntegerIn(surfaces, 1);
    var g := StringIn(changeRef);
    Parsed(Proposal(a.value, b.value, c.value, d.value, e.value, f.value, g.value),
           a.issues + b.issues + c.issues + d.issues + e.issues + f.issues + g.issues)
  }

  function ParseProposal(value: Json): Parsed<Proposal> {
    var o := ObjectIn(value, ProposalKeys(), {});
    var r := ProposalFrom(
      Get(o.value, "component"),
      Get(o.value, "summary"),
      Get(o.value, "prediction"),
      Get(o.value, "expected_unaffected_behaviors"),
      Get(o.value, "known_risks"),
      Get(o.value, "changed_surface_count"),
      Get(o.value, "change_ref"));
    Parsed(r.value, o.issues + r.issues)
  }

  function PrintProposal(r: Proposal): Json {
    JObject(map[
      "component" := JString(r.component),
      "summary" := JString(r.summary),
      "prediction" := JString(r.prediction),
      "expected_unaffected_behaviors" := JArray(Map(r.unaffected, PrintText)),
      "known_risks" := JArray(Map(r.risks, PrintText)),
      "changed_surface_count" := JInt(r.surfaces),
      "change_ref" := JString(r.changeRef)])
  }

  ghost predicate CleanProposal(r: Proposal) {
    && OneOf(r.component, ComponentNames())
    && CleanString(r.summary)
    && CleanString(r.prediction)
    && CleanStrings(r.unaffected, 1)
    && CleanStrings(r.risks, 0)
    && r.surfaces >= 1
    && CleanString(r.changeRef)
  }

  lemma ProposalIsClean(value: Json)
    requires ParseProposal(value).issues == []
    ensures CleanProposal(ParseProposal(value).value)
  {
    hide CleanString, CleanStrings, ComponentNames, EnumIn, OneOf, StringIn, StringsIn, ObjectIn, ProposalKeys;
    var f := ObjectIn(value, ProposalKeys(), {}).value;
    EnumsExist();
    EnumIsClean(Get(f, "component"), ComponentNames());
    StringIsClean(Get(f, "summary"));
    StringIsClean(Get(f, "prediction"));
    StringsAreClean(Get(f, "expected_unaffected_behaviors"), 1);
    StringsAreClean(Get(f, "known_risks"), 0);
    IntegerIsClean(Get(f, "changed_surface_count"), 1);
    StringIsClean(Get(f, "change_ref"));
  }

  lemma ProposalFields(r: Proposal)
    ensures ParseProposal(PrintProposal(r)) == ProposalFrom(
              JString(r.component),
              JString(r.summary),
              JString(r.prediction),
              JArray(Map(r.unaffected, PrintText)),
              JArray(Map(r.risks, PrintText)),
              JInt(r.surfaces),
              JString(r.changeRef))
  {
    hide ProposalFrom, Map;
    assert PrintProposal(r).fields.Keys == ProposalKeys();
  }

  lemma PrintedProposal(r: Proposal)
    requires CleanProposal(r)
    ensures ParseProposal(PrintProposal(r)) == Parsed(r, [])
  {
    hide CleanString, CleanStrings, ComponentNames, EnumIn, OneOf, StringIn, StringsIn, ParseProposal, PrintProposal;
    ProposalFields(r);
    EnumsExist();
    PrintedEnum(r.component, ComponentNames());
    PrintedString(r.summary);
    PrintedString(r.prediction);
    PrintedStrings(r.unaffected, 1);
    PrintedStrings(r.risks, 0);
    PrintedString(r.changeRef);
  }

  // -- null hypothesis

  function NullHypothesisKeys(): set<string> {
    {"statement", "evidence_against"}
  }

  function NullHypothesisFrom(statement: Json, against: Json): Parsed<NullHypothesis> {
    var a := StringIn(statement);
    var b := StringsIn(against, 0);
    Parsed(NullHypothesis(a.value, b.value),
           a.issues + b.issues)
  }

  function ParseNullHypothesis(value: Json): Parsed<NullHypothesis> {
    var o := ObjectIn(value, NullHypothesisKeys(), {});
    var r := NullHypothesisFrom(
      Get(o.value, "statement"),
      Get(o.value, "evidence_against"));
    Parsed(r.value, o.issues + r.issues)
  }

  function PrintNullHypothesis(r: NullHypothesis): Json {
    JObject(map[
      "statement" := JString(r.statement),
      "evidence_against" := JArray(Map(r.against, PrintText))])
  }

  ghost predicate CleanNullHypothesis(r: NullHypothesis) {
    && CleanString(r.statement)
    && CleanStrings(r.against, 0)
  }

  lemma NullHypothesisIsClean(value: Json)
    requires ParseNullHypothesis(value).issues == []
    ensures CleanNullHypothesis(ParseNullHypothesis(value).value)
  {
    hide CleanString, CleanStrings, StringIn, StringsIn, ObjectIn, NullHypothesisKeys;
    var f := ObjectIn(value, NullHypothesisKeys(), {}).value;
    StringIsClean(Get(f, "statement"));
    StringsAreClean(Get(f, "evidence_against"), 0);
  }

  lemma NullHypothesisFields(r: NullHypothesis)
    ensures ParseNullHypothesis(PrintNullHypothesis(r)) == NullHypothesisFrom(
              JString(r.statement),
              JArray(Map(r.against, PrintText)))
  {
    hide NullHypothesisFrom, Map;
    assert PrintNullHypothesis(r).fields.Keys == NullHypothesisKeys();
  }

  lemma PrintedNullHypothesis(r: NullHypothesis)
    requires CleanNullHypothesis(r)
    ensures ParseNullHypothesis(PrintNullHypothesis(r)) == Parsed(r, [])
  {
    hide CleanString, CleanStrings, StringIn, StringsIn, ParseNullHypothesis, PrintNullHypothesis;
    NullHypothesisFields(r);
    PrintedString(r.statement);
    PrintedStrings(r.against, 0);
  }

  // -- validation cases

  function ControlKeys(): set<string> {
    {"id", "kind", "critical", "baseline_passed", "candidate_passed", "evidence_ref"}
  }

  function ControlFrom(id: Json, kind: Json, critical: Json, baseline: Json, candidate: Json, evidence: Json): Parsed<Control> {
    var a := StringIn(id);
    var b := EnumIn(kind, ControlKinds());
    var c := BooleanIn(critical);
    var d := BooleanIn(baseline);
    var e := BooleanIn(candidate);
    var f := StringIn(evidence);
    Parsed(Control(a.value, b.value, c.value, d.value, e.value, f.value),
           a.issues + b.issues + c.issues + d.issues + e.issues + f.issues)
  }

  function ParseControl(value: Json): Parsed<Control> {
    var o := ObjectIn(value, ControlKeys(), {});
    var r := ControlFrom(
      Get(o.value, "id"),
      Get(o.value, "kind"),
      Get(o.value, "critical"),
      Get(o.value, "baseline_passed"),
      Get(o.value, "candidate_passed"),
      Get(o.value, "evidence_ref"));
    Parsed(r.value, o.issues + r.issues)
  }

  function PrintControl(r: Control): Json {
    JObject(map[
      "id" := JString(r.id),
      "kind" := JString(r.kind),
      "critical" := JBool(r.critical),
      "baseline_passed" := JBool(r.baseline),
      "candidate_passed" := JBool(r.candidate),
      "evidence_ref" := JString(r.evidence)])
  }

  ghost predicate CleanControl(r: Control) {
    && CleanString(r.id)
    && OneOf(r.kind, ControlKinds())
    && CleanString(r.evidence)
  }

  lemma ControlIsClean(value: Json)
    requires ParseControl(value).issues == []
    ensures CleanControl(ParseControl(value).value)
  {
    hide CleanString, ControlKinds, EnumIn, OneOf, StringIn, ObjectIn, ControlKeys;
    var f := ObjectIn(value, ControlKeys(), {}).value;
    EnumsExist();
    StringIsClean(Get(f, "id"));
    EnumIsClean(Get(f, "kind"), ControlKinds());
    StringIsClean(Get(f, "evidence_ref"));
  }

  lemma ControlFields(r: Control)
    ensures ParseControl(PrintControl(r)) == ControlFrom(
              JString(r.id),
              JString(r.kind),
              JBool(r.critical),
              JBool(r.baseline),
              JBool(r.candidate),
              JString(r.evidence))
  {
    hide ControlFrom, Map;
    assert PrintControl(r).fields.Keys == ControlKeys();
  }

  lemma PrintedControl(r: Control)
    requires CleanControl(r)
    ensures ParseControl(PrintControl(r)) == Parsed(r, [])
  {
    hide CleanString, ControlKinds, EnumIn, OneOf, StringIn, ParseControl, PrintControl;
    ControlFields(r);
    EnumsExist();
    PrintedString(r.id);
    PrintedEnum(r.kind, ControlKinds());
    PrintedString(r.evidence);
  }

  function ControlId(c: Control): string { c.id }

  lemma ControlsAreClean()
    ensures forall j: Json :: ParseControl(j).issues == [] ==> CleanControl(ParseControl(j).value)
    ensures forall c :: CleanControl(c) ==> ParseControl(PrintControl(c)) == Parsed(c, [])
  {
    hide ParseControl, PrintControl, CleanControl;
    forall j: Json | ParseControl(j).issues == [] ensures CleanControl(ParseControl(j).value) { ControlIsClean(j); }
    forall c | CleanControl(c) ensures ParseControl(PrintControl(c)) == Parsed(c, []) { PrintedControl(c); }
  }

  // -- metric snapshots: every field may be absent, none may be null

  function SnapshotKeys(): set<string> { {"p95_latency_ms", "mean_cost_usd", "mean_tokens"} }

  function OptionalNumber(fields: map<string, Json>, key: string): Parsed<Option<real>> {
    if key !in fields then Parsed(None, [])
    else Parsed(Some(NumberIn(fields[key], None).value), NumberIn(fields[key], None).issues)
  }

  function ParseSnapshot(value: Json): Parsed<Snapshot> {
    var o := ObjectIn(value, {}, SnapshotKeys());
    var a, b, c := OptionalNumber(o.value, "p95_latency_ms"), OptionalNumber(o.value, "mean_cost_usd"),
                   OptionalNumber(o.value, "mean_tokens");
    Parsed(Snapshot(a.value, b.value, c.value), o.issues + a.issues + b.issues + c.issues)
  }

  function With(fields: map<string, Json>, key: string, number: Option<real>): map<string, Json> {
    if number.None? then fields else fields[key := JReal(number.value)]
  }

  function PrintSnapshot(r: Snapshot): Json {
    JObject(With(With(With(map[], "p95_latency_ms", r.latency), "mean_cost_usd", r.cost), "mean_tokens", r.tokens))
  }

  predicate CleanOptional(number: Option<real>) { number.Some? ==> number.value >= 0.0 }

  predicate CleanSnapshot(r: Snapshot) {
    CleanOptional(r.latency) && CleanOptional(r.cost) && CleanOptional(r.tokens)
  }

  lemma SnapshotIsClean(value: Json)
    requires ParseSnapshot(value).issues == []
    ensures CleanSnapshot(ParseSnapshot(value).value)
  {
    hide ObjectIn, SnapshotKeys;
  }

  lemma KeysDiffer()
    ensures "p95_latency_ms" != "mean_cost_usd" && "p95_latency_ms" != "mean_tokens" && "mean_cost_usd" != "mean_tokens"
    ensures "p95_latency_ms" in SnapshotKeys() && "mean_cost_usd" in SnapshotKeys() && "mean_tokens" in SnapshotKeys()
  {
  }

  lemma WithNumber(fields: map<string, Json>, key: string, number: Option<real>)
    requires key !in fields && CleanOptional(number)
    ensures OptionalNumber(With(fields, key, number), key) == Parsed(number, [])
    ensures forall k :: k != key ==> OptionalNumber(With(fields, key, number), k) == OptionalNumber(fields, k)
    ensures With(fields, key, number).Keys <= fields.Keys + {key}
  {
  }

  lemma PrintedSnapshot(r: Snapshot)
    requires CleanSnapshot(r)
    ensures ParseSnapshot(PrintSnapshot(r)) == Parsed(r, [])
  {
    hide With, OptionalNumber, CleanOptional, SnapshotKeys;
    KeysDiffer();
    var first := With(map[], "p95_latency_ms", r.latency);
    var second := With(first, "mean_cost_usd", r.cost);
    WithNumber(map[], "p95_latency_ms", r.latency);
    WithNumber(first, "mean_cost_usd", r.cost);
    WithNumber(second, "mean_tokens", r.tokens);
  }

  // -- metrics

  function MetricsKeys(): set<string> {
    {"baseline", "candidate"}
  }

  function MetricsFrom(baseline: Json, candidate: Json): Parsed<Metrics> {
    var a := ParseSnapshot(baseline);
    var b := ParseSnapshot(candidate);
    Parsed(Metrics(a.value, b.value),
           a.issues + b.issues)
  }

  function ParseMetrics(value: Json): Parsed<Metrics> {
    var o := ObjectIn(value, MetricsKeys(), {});
    var r := MetricsFrom(
      Get(o.value, "baseline"),
      Get(o.value, "candidate"));
    Parsed(r.value, o.issues + r.issues)
  }

  function PrintMetrics(r: Metrics): Json {
    JObject(map[
      "baseline" := PrintSnapshot(r.baseline),
      "candidate" := PrintSnapshot(r.candidate)])
  }

  ghost predicate CleanMetrics(r: Metrics) {
    && CleanSnapshot(r.baseline)
    && CleanSnapshot(r.candidate)
  }

  lemma MetricsIsClean(value: Json)
    requires ParseMetrics(value).issues == []
    ensures CleanMetrics(ParseMetrics(value).value)
  {
    hide CleanSnapshot, ParseSnapshot, ObjectIn, MetricsKeys;
    var f := ObjectIn(value, MetricsKeys(), {}).value;
    SnapshotIsClean(Get(f, "baseline"));
    SnapshotIsClean(Get(f, "candidate"));
  }

  lemma MetricsFields(r: Metrics)
    ensures ParseMetrics(PrintMetrics(r)) == MetricsFrom(
              PrintSnapshot(r.baseline),
              PrintSnapshot(r.candidate))
  {
    hide MetricsFrom, Map, PrintSnapshot;
    assert PrintMetrics(r).fields.Keys == MetricsKeys();
  }

  lemma PrintedMetrics(r: Metrics)
    requires CleanMetrics(r)
    ensures ParseMetrics(PrintMetrics(r)) == Parsed(r, [])
  {
    hide CleanSnapshot, ParseSnapshot, ParseMetrics, PrintMetrics;
    MetricsFields(r);
    PrintedSnapshot(r.baseline);
    PrintedSnapshot(r.candidate);
  }

  // -- hypotheses: the intervention is left out when there is none

  function HypothesisKeys(): set<string> { {"component", "confidence", "evidence_refs"} }

  function InterventionKey(): set<string> { {"intervention"} }

  function HypothesisFrom(component: Json, confidence: Json, evidence: Json, intervention: Json): Parsed<Hypothesis> {
    var a, b, c := EnumIn(component, ComponentNames()), NumberIn(confidence, Some(1.0)), StringsIn(evidence, 1);
    var d := OptionalIn(intervention, ParseIntervention);
    Parsed(Hypothesis(a.value, b.value, c.value, d.value), a.issues + b.issues + c.issues + d.issues)
  }

  function ParseHypothesis(value: Json): Parsed<Hypothesis> {
    var o := ObjectIn(value, HypothesisKeys(), InterventionKey());
    var r := HypothesisFrom(Get(o.value, "component"), Get(o.value, "confidence"), Get(o.value, "evidence_refs"),
                            Get(o.value, "intervention"));
    Parsed(r.value, o.issues + r.issues)
  }

  function PrintHypothesis(r: Hypothesis): Json {
    var fields := map["component" := JString(r.component), "confidence" := JReal(r.confidence),
                      "evidence_refs" := JArray(Map(r.evidence, PrintText))];
    JObject(if r.intervention.None? then fields else fields["intervention" := PrintIntervention(r.intervention.value)])
  }

  ghost predicate CleanHypothesis(r: Hypothesis) {
    && OneOf(r.component, ComponentNames()) && CleanNumber(r.confidence, Some(1.0)) && CleanStrings(r.evidence, 1)
    && (r.intervention.Some? ==> CleanIntervention(r.intervention.value))
  }

  lemma HypothesisIsClean(value: Json)
    requires ParseHypothesis(value).issues == []
    ensures CleanHypothesis(ParseHypothesis(value).value)
  {
    hide EnumIn, OneOf, ComponentNames, NumberIn, CleanNumber, StringsIn, CleanStrings, ParseIntervention, CleanIntervention,
      ObjectIn, HypothesisKeys, InterventionKey;
    var f := ObjectIn(value, HypothesisKeys(), InterventionKey()).value;
    EnumsExist();
    EnumIsClean(Get(f, "component"), ComponentNames());
    NumberIsClean(Get(f, "confidence"), Some(1.0));
    StringsAreClean(Get(f, "evidence_refs"), 1);
    if Get(f, "intervention") != JNull { InterventionIsClean(Get(f, "intervention")); }
  }

  lemma HypothesisFields(r: Hypothesis)
    ensures ParseHypothesis(PrintHypothesis(r)) ==
              HypothesisFrom(JString(r.component), JReal(r.confidence), JArray(Map(r.evidence, PrintText)),
                             PrintOptional(r.intervention, PrintIntervention))
  {
    hide HypothesisFrom, Map, PrintIntervention;
    assert PrintHypothesis(r).fields.Keys == HypothesisKeys() + if r.intervention.None? then {} else InterventionKey();
  }

  lemma PrintedInterventionIsObject(r: Intervention)
    ensures PrintIntervention(r) != JNull
  {
    hide Map;
  }

  lemma PrintedHypothesis(r: Hypothesis)
    requires CleanHypothesis(r)
    ensures ParseHypothesis(PrintHypothesis(r)) == Parsed(r, [])
  {
    hide EnumIn, OneOf, ComponentNames, NumberIn, CleanNumber, StringsIn, CleanStrings, ParseIntervention, CleanIntervention,
      PrintIntervention, ParseHypothesis, PrintHypothesis;
    HypothesisFields(r);
    EnumsExist();
    PrintedEnum(r.component, ComponentNames());
    PrintedNumber(r.confidence, Some(1.0));
    PrintedStrings(r.evidence, 1);
    if r.intervention.Some? {
      PrintedIntervention(r.intervention.value);
      PrintedInterventionIsObject(r.intervention.value);
    }
  }

  function HypothesisComponent(h: Hypothesis): string { h.component }

  lemma HypothesesAreClean()
    ensures forall j: Json :: ParseHypothesis(j).issues == [] ==> CleanHypothesis(ParseHypothesis(j).value)
    ensures forall h :: CleanHypothesis(h) ==> ParseHypothesis(PrintHypothesis(h)) == Parsed(h, [])
  {
    hide ParseHypothesis, PrintHypothesis, CleanHypothesis;
    forall j: Json | ParseHypothesis(j).issues == [] ensures CleanHypothesis(ParseHypothesis(j).value) { HypothesisIsClean(j); }
    forall h | CleanHypothesis(h) ensures ParseHypothesis(PrintHypothesis(h)) == Parsed(h, []) { PrintedHypothesis(h); }
  }

  datatype Attribution = Attribution(hypotheses: seq<Hypothesis>)

  // -- attribution

  function AttributionKeys(): set<string> {
    {"hypotheses"}
  }

  function AttributionFrom(hypotheses: Json): Parsed<Attribution> {
    var a := RowsIn(hypotheses, ParseHypothesis, HypothesisComponent);
    Parsed(Attribution(a.value),
           a.issues)
  }

  function ParseAttribution(value: Json): Parsed<Attribution> {
    var o := ObjectIn(value, AttributionKeys(), {});
    var r := AttributionFrom(
      Get(o.value, "hypotheses"));
    Parsed(r.value, o.issues + r.issues)
  }

  function PrintAttribution(r: Attribution): Json {
    JObject(map[
      "hypotheses" := JArray(Map(r.hypotheses, PrintHypothesis))])
  }

  ghost predicate CleanAttribution(r: Attribution) {
    && CleanRows(r.hypotheses, CleanHypothesis, HypothesisComponent)
  }

  lemma AttributionIsClean(value: Json)
    requires ParseAttribution(value).issues == []
    ensures CleanAttribution(ParseAttribution(value).value)
  {
    hide CleanRows, RowsIn, ObjectIn, AttributionKeys;
    var f := ObjectIn(value, AttributionKeys(), {}).value;
    HypothesesAreClean();
    RowsAreClean(Get(f, "hypotheses"), ParseHypothesis, HypothesisComponent, CleanHypothesis);
  }

  lemma AttributionFields(r: Attribution)
    ensures ParseAttribution(PrintAttribution(r)) == AttributionFrom(
              JArray(Map(r.hypotheses, PrintHypothesis)))
  {
    hide AttributionFrom, Map;
    assert PrintAttribution(r).fields.Keys == AttributionKeys();
  }

  lemma PrintedAttribution(r: Attribution)
    requires CleanAttribution(r)
    ensures ParseAttribution(PrintAttribution(r)) == Parsed(r, [])
  {
    hide CleanRows, RowsIn, ParseAttribution, PrintAttribution;
    AttributionFields(r);
    HypothesesAreClean();
    PrintedRows(r.hypotheses, PrintHypothesis, ParseHypothesis, HypothesisComponent, CleanHypothesis);
  }

  // -- validation: metrics may be absent or null, and are printed as null when there are none

  function ValidationKeys(): set<string> { {"cases"} }

  function MetricsKey(): set<string> { {"metrics"} }

  function ValidationFrom(cases: Json, metrics: Json): Parsed<Validation> {
    var a, b := RowsIn(cases, ParseControl, ControlId), OptionalIn(metrics, ParseMetrics);
    Parsed(Validation(a.value, b.value), a.issues + b.issues)
  }

  function ParseValidation(value: Json): Parsed<Validation> {
    var o := ObjectIn(value, ValidationKeys(), MetricsKey());
    var r := ValidationFrom(Get(o.value, "cases"), Get(o.value, "metrics"));
    Parsed(r.value, o.issues + r.issues)
  }

  function PrintValidation(r: Validation): Json {
    JObject(map["cases" := JArray(Map(r.cases, PrintControl)), "metrics" := PrintOptional(r.metrics, PrintMetrics)])
  }

  ghost predicate CleanValidation(r: Validation) {
    CleanRows(r.cases, CleanControl, ControlId) && (r.metrics.Some? ==> CleanMetrics(r.metrics.value))
  }

  lemma ValidationIsClean(value: Json)
    requires ParseValidation(value).issues == []
    ensures CleanValidation(ParseValidation(value).value)
  {
    hide RowsIn, CleanRows, ParseMetrics, CleanMetrics, ObjectIn, ValidationKeys, MetricsKey;
    var f := ObjectIn(value, ValidationKeys(), MetricsKey()).value;
    ControlsAreClean();
    RowsAreClean(Get(f, "cases"), ParseControl, ControlId, CleanControl);
    if Get(f, "metrics") != JNull { MetricsIsClean(Get(f, "metrics")); }
  }

  lemma ValidationFields(r: Validation)
    ensures ParseValidation(PrintValidation(r)) ==
              ValidationFrom(JArray(Map(r.cases, PrintControl)), PrintOptional(r.metrics, PrintMetrics))
  {
    hide ValidationFrom, Map, PrintOptional;
    assert PrintValidation(r).fields.Keys == ValidationKeys() + MetricsKey();
  }

  lemma PrintedMetricsIsObject(r: Metrics)
    ensures PrintMetrics(r) != JNull
  {
    hide PrintSnapshot;
  }

  lemma PrintedValidation(r: Validation)
    requires CleanValidation(r)
    ensures ParseValidation(PrintValidation(r)) == Parsed(r, [])
  {
    hide RowsIn, CleanRows, ParseMetrics, CleanMetrics, PrintMetrics, ParseValidation, PrintValidation;
    ValidationFields(r);
    ControlsAreClean();
    PrintedRows(r.cases, PrintControl, ParseControl, ControlId, CleanControl);
    if r.metrics.Some? {
      PrintedMetrics(r.metrics.value);
      PrintedMetricsIsObject(r.metrics.value);
    }
  }

  // -- the whole document

  predicate IsIdChar(c: char) { 'A' <= c <= 'Z' || 'a' <= c <= 'z' || '0' <= c <= '9' }

  predicate IsCaseId(s: string) {
    3 <= |s| <= 128 && IsIdChar(s[0]) && forall i :: 0 <= i < |s| ==> IsIdChar(s[i]) || s[i] == '.' || s[i] == '_' || s[i] == '-'
  }

  /** A string with one more rule, applied to what is left after trimming. */
  function RuledIn(value: Json, rule: string -> bool, problem: Problem): Parsed<string> {
    var s := StringIn(value);
    Parsed(s.value, s.issues + if s.value != "" && !rule(s.value) then [problem] else [])
  }

  predicate CleanRuled(s: string, rule: string -> bool) { CleanString(s) && rule(s) }

  lemma RuledIsClean(value: Json, rule: string -> bool, problem: Problem)
    requires RuledIn(value, rule, problem).issues == []
    ensures CleanRuled(RuledIn(value, rule, problem).value, rule)
  {
    hide Strip;
    StringIsClean(value);
  }

  lemma PrintedRuled(s: string, rule: string -> bool, problem: Problem)
    requires CleanRuled(s, rule)
    ensures RuledIn(JString(s), rule, problem) == Parsed(s, [])
  {
    hide Strip;
    PrintedString(s);
  }

  function IsVersion(s: string): bool { s == CaseVersion() }

  function IsId(s: string): bool { IsCaseId(s) }

  function CaseKeys(): set<string> {
    {"schema_version", "case_id", "title", "created_at", "incident", "verification", "attribution", "proposed_change",
     "null_hypothesis", "validation"}
  }

  /** The four header fields. isTimestamp: the text is an ISO 8601 time with a zone. */
  datatype Header = Header(version: string, caseId: string, title: string, createdAt: string)

  function HeaderFrom(isTimestamp: string -> bool, version: Json, caseId: Json, title: Json, createdAt: Json): Parsed<Header> {
    var a, b := RuledIn(version, IsVersion, BadVersion), RuledIn(caseId, IsId, BadCaseId);
    var c, d := StringIn(title), RuledIn(createdAt, isTimestamp, BadTimestamp);
    Parsed(Header(a.value, b.value, c.value, d.value), a.issues + b.issues + c.issues + d.issues)
  }

  function BodyFrom(header: Parsed<Header>, incident: Json, verification: Json, attribution: Json, proposal: Json,
                    nullHypothesis: Json, validation: Json): Parsed<CaseRecord> {
    var a, b, c := ParseIncident(incident), ParseVerification(verification), ParseAttribution(attribution);
    var d, e, f := ParseProposal(proposal), ParseNullHypothesis(nullHypothesis), ParseValidation(validation);
    var h := header.value;
    Parsed(CaseRecord(h.version, h.caseId, h.title, h.createdAt, a.value, b.value, c.value.hypotheses, d.value, e.value, f.value),
           header.issues + a.issues + b.issues + c.issues + d.issues + e.issues + f.issues)
  }

  /** parse_change_case: every section is parsed, and any issue refuses the document. */
  function ParseCase(isTimestamp: string -> bool, document: Json): Parsed<CaseRecord> {
    var o := ObjectIn(document, CaseKeys(), {});
    var header := HeaderFrom(isTimestamp, Get(o.value, "schema_version"), Get(o.value, "case_id"),
                             Get(o.value, "title"), Get(o.value, "created_at"));
    var body := BodyFrom(header, Get(o.value, "incident"), Get(o.value, "verification"), Get(o.value, "attribution"),
                         Get(o.value, "proposed_change"), Get(o.value, "null_hypothesis"), Get(o.value, "validation"));
    Parsed(body.value, o.issues + body.issues)
  }

  /** to_jsonable. */
  function PrintCase(c: CaseRecord): Json {
    JObject(map[
      "schema_version" := JString(c.version), "case_id" := JString(c.caseId), "title" := JString(c.title),
      "created_at" := JString(c.createdAt), "incident" := PrintIncident(c.incident),
      "verification" := PrintVerification(c.verification), "attribution" := PrintAttribution(Attribution(c.hypotheses)),
      "proposed_change" := PrintProposal(c.proposal), "null_hypothesis" := PrintNullHypothesis(c.nullHypothesis),
      "validation" := PrintValidation(c.validation)])
  }

  ghost predicate CleanHeader(isTimestamp: string -> bool, c: CaseRecord) {
    && CleanRuled(c.version, IsVersion) && CleanRuled(c.caseId, IsId) && CleanString(c.title) && CleanRuled(c.createdAt, isTimestamp)
  }

  ghost predicate CleanCase(isTimestamp: string -> bool, c: CaseRecord) {
    && CleanHeader(isTimestamp, c) && CleanIncident(c.incident) && CleanVerification(c.verification)
    && CleanAttribution(Attribution(c.hypotheses)) && CleanProposal(c.proposal) && CleanNullHypothesis(c.nullHypothesis)
    && CleanValidation(c.validation)
  }

  /** A document without issues gives a case in normal form. */
  lemma ParsedCaseIsClean(isTimestamp: string -> bool, document: Json)
    requires ParseCase(isTimestamp, document).issues == []
    ensures CleanCase(isTimestamp, ParseCase(isTimestamp, document).value)
  {
    hide StringIn, CleanString, RuledIn, CleanRuled, ParseIncident, CleanIncident, ParseVerification, CleanVerification,
      ParseAttribution, CleanAttribution, ParseProposal, CleanProposal, ParseNullHypothesis, CleanNullHypothesis,
      ParseValidation, CleanValidation, ObjectIn, CaseKeys;
    var f := ObjectIn(document, CaseKeys(), {}).value;
    RuledIsClean(Get(f, "schema_version"), IsVersion, BadVersion);
    RuledIsClean(Get(f, "case_id"), IsId, BadCaseId);
    StringIsClean(Get(f, "title"));
    RuledIsClean(Get(f, "created_at"), isTimestamp, BadTimestamp);
    IncidentIsClean(Get(f, "incident"));
    VerificationIsClean(Get(f, "verification"));
    AttributionIsClean(Get(f, "attribution"));
    ProposalIsClean(Get(f, "proposed_change"));
    NullHypothesisIsClean(Get(f, "null_hypothesis"));
    ValidationIsClean(Get(f, "validation"));
  }

  lemma CaseFields(isTimestamp: string -> bool, c: CaseRecord)
    ensures ParseCase(isTimestamp, PrintCase(c)) == BodyFrom(
              HeaderFrom(isTimestamp, JString(c.version), JString(c.caseId), JString(c.title), JString(c.createdAt)),
              PrintIncident(c.incident), PrintVerification(c.verification), PrintAttribution(Attribution(c.hypotheses)),
              PrintProposal(c.proposal), PrintNullHypothesis(c.nullHypothesis), PrintValidation(c.validation))
  {
    hide HeaderFrom, BodyFrom, PrintIncident, PrintVerification, PrintAttribution, PrintProposal, PrintNullHypothesis, PrintValidation;
    assert PrintCase(c).fields.Keys == CaseKeys();
  }

  lemma PrintedCase(isTimestamp: string -> bool, c: CaseRecord)
    requires CleanCase(isTimestamp, c)
    ensures ParseCase(isTimestamp, PrintCase(c)) == Parsed(c, [])
  {
    hide StringIn, CleanString, RuledIn, CleanRuled, ParseIncident, CleanIncident, ParseVerification, CleanVerification,
      ParseAttribution, CleanAttribution, ParseProposal, CleanProposal, ParseNullHypothesis, CleanNullHypothesis,
      ParseValidation, CleanValidation, PrintIncident, PrintVerification, PrintAttribution, PrintProposal, PrintNullHypothesis,
      PrintValidation, ParseCase, PrintCase;
    CaseFields(isTimestamp, c);
    PrintedRuled(c.version, IsVersion, BadVersion);
    PrintedRuled(c.caseId, IsId, BadCaseId);
    PrintedString(c.title);
    PrintedRuled(c.createdAt, isTimestamp, BadTimestamp);
    PrintedIncident(c.incident);
    PrintedVerification(c.verification);
    PrintedAttribution(Attribution(c.hypotheses));
    PrintedProposal(c.proposal);
    PrintedNullHypothesis(c.nullHypothesis);
    PrintedValidation(c.validation);
  }

  /** The round trip: when a document has no issues, the JSON form of its case
      parses without issues to the same case. So trimming, key order, a null
      intervention and absent metrics are normalised once and for all. */
  lemma CaseRoundTrip(isTimestamp: string -> bool, document: Json)
    requires ParseCase(isTimestamp, document).issues == []
    ensures ParseCase(isTimestamp, PrintCase(ParseCase(isTimestamp, document).value)) == ParseCase(isTimestamp, document)
  {
    hide ParseCase, PrintCase, CleanCase;
    ParsedCaseIsClean(isTimestamp, document);
    PrintedCase(isTimestamp, ParseCase(isTimestamp, document).value);
  }

  /** document_sha256 over any canonical text of the JSON form. */
  function Digest(canonical: Json -> string, sha256: string -> string, c: CaseRecord): string {
    sha256(canonical(PrintCase(c)))
  }

  /** Two accepted documents have the same digest exactly when they parse equal,
      provided neither the canonical text nor the digest confuses their two cases. */
  lemma DigestIdentifiesCase(isTimestamp: string -> bool, canonical: Json -> string, sha256: string -> string, a: Json, b: Json)
    requires ParseCase(isTimestamp, a).issues == [] && ParseCase(isTimestamp, b).issues == []
    requires var x, y := PrintCase(ParseCase(isTimestamp, a).value), PrintCase(ParseCase(isTimestamp, b).value);
             && (canonical(x) == canonical(y) ==> x == y)
             && (sha256(canonical(x)) == sha256(canonical(y)) ==> canonical(x) == canonical(y))
    ensures Digest(canonical, sha256, ParseCase(isTimestamp, a).value) == Digest(canonical, sha256, ParseCase(isTimestamp, b).value)
            <==> ParseCase(isTimestamp, a).value == ParseCase(isTimestamp, b).value
  {
    hide ParseCase, PrintCase;
    CaseRoundTrip(isTimestamp, a);
    CaseRoundTrip(isTimestamp, b);
  }
}
