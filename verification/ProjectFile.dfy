/** The project configuration file of src/causure/onboarding.py: a strict parser
    of three schema versions and a printer of the newest one. */
module ProjectFile {
  import opened Vocabulary
  import opened Sequences
  import opened Sorting
  import opened Paths
  import opened Configuration
  import opened JsonTree

  const MAX_ADAPTERS := 32
  const MAX_COMPONENTS := 128
  const MAX_PATHS := 32
  const MAX_RETENTION := 90
  const DEFAULT_RETENTION := 30

  function LegacyKeys(): set<string> {
    { "adapter_directory", "artifact_directory", "policy_file", "project_id", "raw_trace_storage", "schema_version"}
  }

  function ProjectKeys(): set<string> {
    LegacyKeys() + {"github", "trusted_adapter_entry_points"}
  }

  function GithubKeys(): set<string> {
    {"artifact_retention_days", "components"}
  }

  function PreviousComponentKeys(): set<string> {
    {"case_file", "component", "component_id", "paths"}
  }

  function ComponentKeys(): set<string> {
    PreviousComponentKeys() + {"case_generator_adapter_id"}
  }

  function AdapterKeys(): set<string> {
    {"adapter_id", "entry_point", "kind"}
  }

  predicate IsComponentName(name: string) { name in ComponentNames() }

  // ---------------------------------------------------------------- identifiers

  predicate IsIdChar(c: char) { 'a' <= c <= 'z' || '0' <= c <= '9' }

  predicate IsProjectId(s: string) {
    && 1 <= |s| <= 64 && IsIdChar(s[0]) && IsIdChar(s[|s| - 1])
    && forall i :: 0 <= i < |s| ==> IsIdChar(s[i]) || s[i] == '-'
  }

  /** _validate_project_id. */
  function ProjectId(value: string): (id: Option<string>)
    ensures id.Some? ==> id.value == Strip(value) && IsProjectId(id.value)
  {
    if IsProjectId(Strip(value)) then Some(Strip(value)) else None
  }

  lemma ProjectIdIdempotent(value: string)
    requires ProjectId(value).Some?
    ensures ProjectId(ProjectId(value).value) == ProjectId(value)
  {
    hide IsProjectId;
    StripIdempotent(value);
  }

  predicate IsEntryName(s: string) {
    && 1 <= |s| <= 127 && ('A' <= s[0] <= 'Z' || 'a' <= s[0] <= 'z' || s[0] == '_')
    && forall i :: 0 <= i < |s| ==> 'A' <= s[i] <= 'Z' || 'a' <= s[i] <= 'z' || '0' <= s[i] <= '9' || s[i] == '_' || s[i] == '.'
  }

  /** module.path:callable. */
  predicate IsEntryPoint(s: string) {
    exists i :: 0 <= i < |s| && s[i] == ':' && IsEntryName(s[..i]) && IsEntryName(s[i + 1..])
  }

  // -- a project name always gives an identifier

  /** Every run of other characters becomes one hyphen. */
  function Hyphenated(s: string): string {
    if s == "" then ""
    else
      var front := Hyphenated(s[..|s| - 1]);
      if IsIdChar(s[|s| - 1]) then front + [s[|s| - 1]]
      else if front != "" && front[|front| - 1] == '-' then front
      else front + "-"
  }

  function TrimLeft(s: string): (t: string)
    ensures t == "" || t[0] != '-'
    ensures |t| <= |s| && t == s[|s| - |t|..]
  {
    if s != "" && s[0] == '-' then TrimLeft(s[1..]) else s
  }

  function TrimRight(s: string): (t: string)
    ensures t == "" || t[|t| - 1] != '-'
    ensures |t| <= |s| && t == s[..|t|]
  {
    if s != "" && s[|s| - 1] == '-' then TrimRight(s[..|s| - 1]) else s
  }

  /** _derive_project_id of a name already reduced to lower-case ASCII. */
  function DerivedId(name: string): string {
    var candidate := TrimRight(TrimLeft(Hyphenated(name)));
    var shortened := TrimRight(if |candidate| > 64 then candidate[..64] else candidate);
    if shortened == "" then "causure-project" else shortened
  }

  lemma {:induction false} HyphenatedChars(s: string)
    ensures forall i :: 0 <= i < |Hyphenated(s)| ==> IsIdChar(Hyphenated(s)[i]) || Hyphenated(s)[i] == '-'
  {
    if s != "" { HyphenatedChars(s[..|s| - 1]); }
  }

  lemma IdIsStripped(id: string)
    requires IsProjectId(id)
    ensures ProjectId(id) == Some(id)
  {
    Unstripped(id);
  }

  predicate IsSlug(s: string) {
    forall i :: 0 <= i < |s| ==> IsIdChar(s[i]) || s[i] == '-'
  }

  lemma SlugPart(s: string, i: nat, j: nat)
    requires IsSlug(s) && i <= j <= |s|
    ensures IsSlug(s[i..j])
  {
  }

  /** Whatever the directory is called, a valid identifier can be derived. */
  lemma DerivedIdIsValid(name: string)
    ensures ProjectId(DerivedId(name)) == Some(DerivedId(name))
  {
    hide TrimLeft, TrimRight, Hyphenated, Strip, IsIdChar;
    HyphenatedChars(name);
    var slug := Hyphenated(name);
    var left := TrimLeft(slug);
    var candidate := TrimRight(left);
    var cut := if |candidate| > 64 then candidate[..64] else candidate;
    var shortened := TrimRight(cut);
    SlugPart(slug, |slug| - |left|, |slug|);
    SlugPart(left, 0, |candidate|);
    SlugPart(candidate, 0, |cut|);
    SlugPart(cut, 0, |shortened|);
    assert cut == candidate[0..|cut|] && shortened == cut[0..|shortened|] && candidate == left[0..|candidate|];
    if shortened == "" {
      DefaultIdIsValid();
    } else {
      assert shortened[0] == left[0] && shortened[|shortened| - 1] != '-';
      IdIsStripped(shortened);
    }
  }

  lemma DefaultIdIsValid()
    ensures ProjectId("causure-project") == Some("causure-project")
  {
    IdIsStripped("causure-project");
  }

  // ---------------------------------------------------------------- parsing

  /** _closed_configuration_object: exactly these keys. */
  function Closed(value: Json, keys: set<string>): (fields: Option<map<string, Json>>)
    ensures fields.Some? ==> value == JObject(fields.value) && fields.value.Keys == keys
  {
    if value.JObject? && value.fields.Keys == keys then Some(value.fields) else None
  }

  function IdIn(value: Json): Option<string> {
    if value.JString? then ProjectId(value.s) else None
  }

  function RelativeIn(value: Json): Option<string> {
    if value.JString? then RelativePath(value.s) else None
  }

  function RepositoryIn(value: Json, allowGlob: bool): Option<string> {
    if value.JString? then RepositoryPath(value.s, allowGlob) else None
  }

  function KindName(kind: AdapterKind): string {
    match kind
    case Replay => "replay"
    case Evaluator => "evaluator"
    case CaseGenerator => "case_generator"
  }

  function KindIn(value: Json, allowGenerators: bool): Option<AdapterKind> {
    if value == JString("replay") then Some(Replay)
    else if value == JString("evaluator") then Some(Evaluator)
    else if value == JString("case_generator") && allowGenerators then Some(CaseGenerator)
    else None
  }

  function AdapterIdOf(a: Adapter): string { a.adapterId }

  function ParseAdapter(item: Json, allowGenerators: bool): Option<Adapter> {
    match Closed(item, AdapterKeys())
    case None => None
    case Some(entry) =>
      var adapterId, kind, entryPoint := IdIn(entry["adapter_id"]), KindIn(entry["kind"], allowGenerators), entry["entry_point"];
      if adapterId.None? || kind.None? || !entryPoint.JString? || !IsEntryPoint(entryPoint.s) then None
      else Some(Adapter(adapterId.value, kind.value, entryPoint.s))
  }

  /** The adapters of these items, each identifier new. */
  function ParsedAdapters(items: seq<Json>, allowGenerators: bool): Option<seq<Adapter>> {
    if items == [] then Some([]) else
    match ParsedAdapters(items[..|items| - 1], allowGenerators)
    case None => None
    case Some(adapters) =>
      match ParseAdapter(items[|items| - 1], allowGenerators)
      case None => None
      case Some(adapter) =>
        if adapter.adapterId in Map(adapters, AdapterIdOf) then None else Some(adapters + [adapter])
  }

  function AdaptersIn(value: Json, allowGenerators: bool): Option<seq<Adapter>> {
    if !value.JArray? || |value.items| > MAX_ADAPTERS then None else ParsedAdapters(value.items, allowGenerators)
  }

  /** All the patterns of a component, or nothing. */
  function ParsedPatterns(items: seq<Json>): Option<seq<string>> {
    if items == [] then Some([]) else
    match ParsedPatterns(items[..|items| - 1])
    case None => None
    case Some(patterns) =>
      match RepositoryIn(items[|items| - 1], true)
      case None => None
      case Some(pattern) => Some(patterns + [pattern])
  }

  function PatternsIn(value: Json): Option<seq<string>> {
    if !value.JArray? || !(1 <= |value.items| <= MAX_PATHS) then None else
    match ParsedPatterns(value.items)
    case None => None
    case Some(patterns) => if DistinctStrings(patterns) then Some(patterns) else None
  }

  predicate DistinctStrings(s: seq<string>) {
    forall i, j :: 0 <= i < j < |s| ==> s[i] != s[j]
  }

  function GeneratorIn(value: Json): Option<Option<string>> {
    if value == JNull then Some(None) else
    match IdIn(value)
    case None => None
    case Some(id) => Some(Some(id))
  }

  function ComponentFrom(id: Json, name: Json, paths: Json, caseFile: Json, generator: Option<Json>): Option<Component> {
    var componentId, patterns, file := IdIn(id), PatternsIn(paths), RepositoryIn(caseFile, false);
    var generatorId := if generator.Some? then GeneratorIn(generator.value) else Some(None);
    if componentId.None? || !name.JString? || !IsComponentName(name.s) || patterns.None? || file.None? || generatorId.None?
    then None
    else Some(Component(componentId.value, name.s, patterns.value, file.value, generatorId.value))
  }

  function ParseComponent(item: Json, generators: bool): Option<Component> {
    match Closed(item, if generators then ComponentKeys() else PreviousComponentKeys())
    case None => None
    case Some(fields) =>
      ComponentFrom(fields["component_id"], fields["component"], fields["paths"], fields["case_file"],
                    if generators then Some(fields["case_generator_adapter_id"]) else None)
  }

  function ComponentIdOf(c: Component): string { c.componentId }

  function CaseFileOf(c: Component): string { c.caseFile }

  function PathsOf(c: Component): seq<string> { c.paths }

  /** The component repeats nothing of the earlier ones. */
  predicate Fresh(earlier: seq<Component>, c: Component) {
    && c.componentId !in Map(earlier, ComponentIdOf) && c.caseFile !in Map(earlier, CaseFileOf)
    && forall i :: 0 <= i < |c.paths| ==> c.paths[i] !in Concat(Map(earlier, PathsOf))
  }

  function ParsedComponents(items: seq<Json>, generators: bool): Option<seq<Component>> {
    if items == [] then Some([]) else
    match ParsedComponents(items[..|items| - 1], generators)
    case None => None
    case Some(components) =>
      match ParseComponent(items[|items| - 1], generators)
      case None => None
      case Some(c) => if Fresh(components, c) then Some(components + [c]) else None
  }

  function GithubIn(value: Json, generators: bool): Option<(int, seq<Component>)> {
    match Closed(value, GithubKeys())
    case None => None
    case Some(github) =>
      var retention, components := github["artifact_retention_days"], github["components"];
      if !retention.JInt? || !(1 <= retention.n <= MAX_RETENTION) then None
      else if !components.JArray? || |components.items| > MAX_COMPONENTS then None
      else match ParsedComponents(components.items, generators)
        case None => None
        case Some(parsed) => Some((retention.n, parsed))
  }

  predicate IsGenerator(adapters: seq<Adapter>, generator: string) {
    exists i :: 0 <= i < |adapters| && adapters[i].adapterId == generator && adapters[i].kind == CaseGenerator
  }

  predicate Resolved(adapters: seq<Adapter>, components: seq<Component>) {
    forall i :: 0 <= i < |components| && components[i].generator.Some? ==> IsGenerator(adapters, components[i].generator.value)
  }

  /** The fields that every version has. */
  datatype Basics = Basics(projectId: Json, policyFile: Json, adapterDirectory: Json, artifactDirectory: Json, traceStorage: Json)

  function BasicsOf(fields: map<string, Json>): Basics
    requires LegacyKeys() <= fields.Keys
  {
    Basics(fields["project_id"], fields["policy_file"], fields["adapter_directory"], fields["artifact_directory"],
           fields["raw_trace_storage"])
  }

  predicate IsDisabled(value: Json) { value == JString("disabled") }

  function Assembled(b: Basics, adapters: seq<Adapter>, retention: int, components: seq<Component>): Option<Project> {
    var projectId, policyFile := IdIn(b.projectId), RelativeIn(b.policyFile);
    var adapterDirectory, artifactDirectory := RelativeIn(b.adapterDirectory), RelativeIn(b.artifactDirectory);
    if !IsDisabled(b.traceStorage) || !Resolved(adapters, components) then None
    else if projectId.None? || policyFile.None? || adapterDirectory.None? || artifactDirectory.None? then None
    else Some(Project(projectId.value, policyFile.value, adapterDirectory.value, artifactDirectory.value, adapters, retention, components))
  }

  /** The body of versions 2.0 and 3.0, which differ in case generators. */
  function AssembledFrom(b: Basics, adapters: Json, github: Json, generators: bool): Option<Project> {
    var parsed, hosted := AdaptersIn(adapters, generators), GithubIn(github, generators);
    if parsed.None? || hosted.None? then None else Assembled(b, parsed.value, hosted.value.0, hosted.value.1)
  }

  datatype Version = Legacy | Previous | Current

  function VersionIn(fields: map<string, Json>): Option<Version> {
    if "schema_version" !in fields then None
    else if fields["schema_version"] == JString("1.0") then Some(Legacy)
    else if fields["schema_version"] == JString("2.0") then Some(Previous)
    else if fields["schema_version"] == JString("3.0") then Some(Current)
    else None
  }

  /** parse_project_configuration. */
  function ParseProject(document: Json): Option<Project> {
    if !document.JObject? then None else
    var fields := document.fields;
    match VersionIn(fields)
    case None => None
    case Some(Legacy) => if fields.Keys != LegacyKeys() then None else Assembled(BasicsOf(fields), [], DEFAULT_RETENTION, [])
    case Some(version) =>
      if fields.Keys != ProjectKeys() then None
      else AssembledFrom(BasicsOf(fields), fields["trusted_adapter_entry_points"], fields["github"], version == Current)
  }

  // ---------------------------------------------------------------- printing

  function PrintAdapter(a: Adapter): Json {
    JObject(map["adapter_id" := JString(a.adapterId), "entry_point" := JString(a.entryPoint), "kind" := JString(KindName(a.kind))])
  }

  function PrintString(s: string): Json { JString(s) }

  function PrintComponent(c: Component): Json {
    JObject(map[
      "case_file" := JString(c.caseFile),
      "case_generator_adapter_id" := if c.generator.None? then JNull else JString(c.generator.value),
      "component" := JString(c.component),
      "component_id" := JString(c.componentId),
      "paths" := JArray(Map(c.paths, PrintString))])
  }

  function PrintGithub(p: Project): Json {
    JObject(map["artifact_retention_days" := JInt(p.retentionDays), "components" := JArray(Map(p.components, PrintComponent))])
  }

  /** _project_document: always the newest version. */
  function PrintProject(p: Project): Json {
    JObject(map[
      "adapter_directory" := JString(p.adapterDirectory),
      "artifact_directory" := JString(p.artifactDirectory),
      "github" := PrintGithub(p),
      "policy_file" := JString(p.policyFile),
      "project_id" := JString(p.projectId),
      "raw_trace_storage" := JString("disabled"),
      "schema_version" := JString("3.0"),
      "trusted_adapter_entry_points" := JArray(Map(p.adapters, PrintAdapter))])
  }

  // ---------------------------------------------------------------- the valid configurations

  predicate ValidId(id: string) { ProjectId(id) == Some(id) }

  predicate ValidRelative(path: string) { RelativePath(path) == Some(path) }

  predicate ValidAdapter(a: Adapter) {
    ValidId(a.adapterId) && IsEntryPoint(a.entryPoint)
  }

  /** Every field of the component is in normal form. */
  predicate NormalComponent(c: Component) {
    && ValidId(c.componentId) && IsComponentName(c.component) && RepositoryPath(c.caseFile, false) == Some(c.caseFile)
    && (forall i :: 0 <= i < |c.paths| ==> PatternAccepted(c.paths[i]))
    && (c.generator.Some? ==> ValidId(c.generator.value))
  }

  predicate ValidPaths(paths: seq<string>) {
    1 <= |paths| <= MAX_PATHS && DistinctStrings(paths)
  }

  predicate ValidComponent(c: Component) {
    NormalComponent(c) && ValidPaths(c.paths)
  }

  ghost predicate ValidAdapters(adapters: seq<Adapter>) {
    && |adapters| <= MAX_ADAPTERS && Distinct(Map(adapters, AdapterIdOf))
    && forall i :: 0 <= i < |adapters| ==> ValidAdapter(adapters[i])
  }

  /** Identifiers, case files and patterns are all distinct. */
  ghost predicate ValidComponents(components: seq<Component>) {
    && |components| <= MAX_COMPONENTS
    && (forall i :: 0 <= i < |components| ==> ValidComponent(components[i]))
    && Distinct(Map(components, ComponentIdOf)) && Distinct(Map(components, CaseFileOf))
    && Distinct(Concat(Map(components, PathsOf)))
  }

  ghost predicate ValidProject(p: Project) {
    && ValidId(p.projectId) && ValidRelative(p.policyFile) && ValidRelative(p.adapterDirectory) && ValidRelative(p.artifactDirectory)
    && 1 <= p.retentionDays <= MAX_RETENTION
    && ValidAdapters(p.adapters) && ValidComponents(p.components) && Resolved(p.adapters, p.components)
  }

  /** The case files of a valid configuration lie at different places below the
      repository root, or at the root itself for the one spelled ".". */
  lemma CaseFilesLieApart(p: Project, root: seq<string>, i: nat, j: nat)
    requires ValidProject(p) && i < |p.components| && j < |p.components|
    ensures var at := Below(root, p.components[i].caseFile);
            && root <= at && ".." !in at[|root|..]
            && (at == root <==> p.components[i].caseFile == ".")
            && (at == Below(root, p.components[j].caseFile) <==> i == j)
  {
    hide Contained, PathParts, Strip, IsProjectId, IsEntryPoint, Concat, Split, Filter;
    var a, b := p.components[i], p.components[j];
    assert ValidComponent(a) && ValidComponent(b);
    assert Contained(a.caseFile) && Contained(b.caseFile);
    ContainedPathsLead(root, a.caseFile, b.caseFile);
    ContainedIsTheCheck(a.caseFile);
    assert Below(root, a.caseFile)[|root|..] == PathParts(a.caseFile);
    assert Map(p.components, CaseFileOf)[i] == a.caseFile && Map(p.components, CaseFileOf)[j] == b.caseFile;
  }

  /** The parser accepts a component whose case file is ".". */
  lemma DotIsACaseFile(id: Json, name: Json, paths: Json, caseFile: string)
    requires ComponentFrom(id, name, paths, JString(caseFile), None).Some?
    ensures ComponentFrom(id, name, paths, JString("."), None).Some?
    ensures ComponentFrom(id, name, paths, JString("."), None).value.caseFile == "."
  {
    hide RepositoryPath;
    DotIsAccepted(false);
  }

  // ---------------------------------------------------------------- the parsing loops

  lemma {:induction false} AdapterErrorsStay(items: seq<Json>, allowGenerators: bool, i: nat)
    requires i <= |items| && ParsedAdapters(items[..i], allowGenerators).None?
    ensures ParsedAdapters(items, allowGenerators).None?
  {
    if i == |items| {
      assert items[..i] == items;
    } else {
      assert items[..|items| - 1][..i] == items[..i];
      AdapterErrorsStay(items[..|items| - 1], allowGenerators, i);
    }
  }

  lemma {:induction false} ComponentErrorsStay(items: seq<Json>, generators: bool, i: nat)
    requires i <= |items| && ParsedComponents(items[..i], generators).None?
    ensures ParsedComponents(items, generators).None?
  {
    if i == |items| {
      assert items[..i] == items;
    } else {
      assert items[..|items| - 1][..i] == items[..i];
      ComponentErrorsStay(items[..|items| - 1], generators, i);
    }
  }

  /** The loop over trusted_adapter_entry_points with its set of seen identifiers. */
  method ParseAdapters(items: seq<Json>, allowGenerators: bool) returns (r: Option<seq<Adapter>>)
    ensures r == ParsedAdapters(items, allowGenerators)
  {
    hide ParseAdapter;
    var parsed: seq<Adapter> := [];
    var seen: set<string> := {};
    for i := 0 to |items|
      invariant ParsedAdapters(items[..i], allowGenerators) == Some(parsed)
      invariant seen == Elements(Map(parsed, AdapterIdOf))
    {
      assert items[..i + 1][..i] == items[..i];
      var adapter := ParseAdapter(items[i], allowGenerators);
      if adapter.None? || adapter.value.adapterId in seen {
        AdapterErrorsStay(items, allowGenerators, i + 1);
        return None;
      }
      seen := seen + {adapter.value.adapterId};
      assert Map(parsed + [adapter.value], AdapterIdOf) == Map(parsed, AdapterIdOf) + [adapter.value.adapterId];
      parsed := parsed + [adapter.value];
    }
    assert items[..|items|] == items;
    return Some(parsed);
  }

  /** The loop over github.components with its three sets of seen values. */
  method ParseComponents(items: seq<Json>, generators: bool) returns (r: Option<seq<Component>>)
    ensures r == ParsedComponents(items, generators)
  {
    hide ParseComponent, Concat;
    var components: seq<Component> := [];
    var seenIds: set<string> := {};
    var seenCaseFiles: set<string> := {};
    var seenPatterns: set<string> := {};
    NothingSeen();
    for i := 0 to |items|
      invariant ParsedComponents(items[..i], generators) == Some(components)
      invariant seenIds == Elements(Map(components, ComponentIdOf)) && seenCaseFiles == Elements(Map(components, CaseFileOf))
      invariant seenPatterns == Elements(Concat(Map(components, PathsOf)))
    {
      assert items[..i + 1][..i] == items[..i];
      var parsed := ParseComponent(items[i], generators);
      if parsed.None? {
        ComponentErrorsStay(items, generators, i + 1);
        return None;
      }
      var c := parsed.value;
      if c.componentId in seenIds || (exists k :: 0 <= k < |c.paths| && c.paths[k] in seenPatterns) || c.caseFile in seenCaseFiles {
        assert !Fresh(components, c);
        ComponentErrorsStay(items, generators, i + 1);
        return None;
      }
      SeenSnoc(components, c);
      seenIds := seenIds + {c.componentId};
      seenPatterns := seenPatterns + Elements(c.paths);
      seenCaseFiles := seenCaseFiles + {c.caseFile};
      components := components + [c];
    }
    assert items[..|items|] == items;
    return Some(components);
  }

  lemma NothingSeen()
    ensures Concat(Map([], PathsOf)) == []
  {
  }

  lemma SeenSnoc(components: seq<Component>, c: Component)
    ensures Elements(Map(components + [c], ComponentIdOf)) == Elements(Map(components, ComponentIdOf)) + {c.componentId}
    ensures Elements(Map(components + [c], CaseFileOf)) == Elements(Map(components, CaseFileOf)) + {c.caseFile}
    ensures Concat(Map(components + [c], PathsOf)) == Concat(Map(components, PathsOf)) + c.paths
    ensures Elements(Concat(Map(components + [c], PathsOf))) == Elements(Concat(Map(components, PathsOf))) + Elements(c.paths)
  {
    MapSnoc(components, c, ComponentIdOf);
    MapSnoc(components, c, CaseFileOf);
    MapSnoc(components, c, PathsOf);
    var parts := Map(components, PathsOf) + [c.paths];
    assert parts[..|components|] == Map(components, PathsOf);
  }

  // ---------------------------------------------------------------- printed documents are parsed back exactly

  lemma DistinctAppend(a: seq<string>, b: seq<string>)
    ensures Distinct(a + b) <==> Distinct(a) && Distinct(b) && forall i :: 0 <= i < |b| ==> b[i] !in a
  {
    var s := a + b;
    if Distinct(s) {
      assert forall i :: 0 <= i < |a| ==> s[i] == a[i];
      assert forall i :: 0 <= i < |b| ==> s[|a| + i] == b[i];
      forall i, j | 0 <= i < j < |b| ensures b[i] != b[j] {
        assert s[|a| + i] != s[|a| + j];
      }
      forall i | 0 <= i < |b| ensures b[i] !in a {
        forall k | 0 <= k < |a| ensures a[k] != b[i] {
          assert s[k] != s[|a| + i];
        }
      }
    }
  }

  lemma AdapterFields(a: Adapter)
    ensures PrintAdapter(a).JObject? && PrintAdapter(a).fields.Keys == AdapterKeys()
    ensures "adapter_id" in AdapterKeys() && "kind" in AdapterKeys() && "entry_point" in AdapterKeys()
    ensures PrintAdapter(a).fields["adapter_id"] == JString(a.adapterId)
    ensures PrintAdapter(a).fields["kind"] == JString(KindName(a.kind))
    ensures PrintAdapter(a).fields["entry_point"] == JString(a.entryPoint)
  {
    hide KindName;
  }

  lemma PrintedKind(kind: AdapterKind)
    ensures KindIn(JString(KindName(kind)), true) == Some(kind)
  {
  }

  lemma PrintedAdapter(a: Adapter)
    requires ValidAdapter(a)
    ensures ParseAdapter(PrintAdapter(a), true) == Some(a)
  {
    hide IsEntryPoint, PrintAdapter, AdapterKeys, KindIn, KindName, ProjectId, Strip, IsProjectId;
    AdapterFields(a);
    PrintedKind(a.kind);
  }

  lemma {:induction false} PrintedAdapters(adapters: seq<Adapter>)
    requires forall i :: 0 <= i < |adapters| ==> ValidAdapter(adapters[i])
    ensures ParsedAdapters(Map(adapters, PrintAdapter), true) == if Distinct(Map(adapters, AdapterIdOf)) then Some(adapters) else None
  {
    hide ParseAdapter, PrintAdapter, ValidAdapter;
    if adapters != [] {
      var front, a := adapters[..|adapters| - 1], adapters[|adapters| - 1];
      assert adapters == front + [a];
      hide ParsedAdapters, Map, Distinct;
      PrintedAdapters(front);
      PrintedAdapter(a);
      MapSnoc(front, a, PrintAdapter);
      MapSnoc(front, a, AdapterIdOf);
      DistinctAppend(Map(front, AdapterIdOf), [a.adapterId]);
      AdapterSnoc(Map(front, PrintAdapter), PrintAdapter(a), true);
    }
  }

  lemma AdapterSnoc(items: seq<Json>, item: Json, allowGenerators: bool)
    ensures ParsedAdapters(items + [item], allowGenerators) ==
              match ParsedAdapters(items, allowGenerators)
              case None => None
              case Some(adapters) =>
                match ParseAdapter(item, allowGenerators)
                case None => None
                case Some(adapter) =>
                  if adapter.adapterId in Map(adapters, AdapterIdOf) then None else Some(adapters + [adapter])
  {
    hide ParseAdapter;
    assert (items + [item])[..|items|] == items;
  }

  lemma PatternSnoc(items: seq<Json>, pattern: string)
    requires PatternAccepted(pattern)
    ensures ParsedPatterns(items + [JString(pattern)])
            == match ParsedPatterns(items) case None => None case Some(patterns) => Some(patterns + [pattern])
  {
    hide RepositoryPath;
    assert (items + [JString(pattern)])[..|items|] == items;
  }

  lemma {:induction false} PrintedPatterns(patterns: seq<string>)
    requires forall i :: 0 <= i < |patterns| ==> PatternAccepted(patterns[i])
    ensures ParsedPatterns(Map(patterns, PrintString)) == Some(patterns)
  {
    hide PatternAccepted, Strip;
    if patterns != [] {
      var front, x := patterns[..|patterns| - 1], patterns[|patterns| - 1];
      assert patterns == front + [x];
      hide ParsedPatterns, Map;
      PrintedPatterns(front);
      MapSnoc(front, x, PrintString);
      PatternSnoc(Map(front, PrintString), x);
    }
  }

  lemma ComponentFields(c: Component)
    ensures ParseComponent(PrintComponent(c), true) ==
              ComponentFrom(JString(c.componentId), JString(c.component), JArray(Map(c.paths, PrintString)), JString(c.caseFile),
                            Some(if c.generator.None? then JNull else JString(c.generator.value)))
  {
    hide Map, ComponentFrom;
    assert PrintComponent(c).fields.Keys == ComponentKeys();
  }

  lemma PrintedFields(c: Component)
    requires NormalComponent(c)
    ensures IdIn(JString(c.componentId)) == Some(c.componentId) && IsComponentName(c.component)
    ensures RepositoryIn(JString(c.caseFile), false) == Some(c.caseFile)
    ensures PatternsIn(JArray(Map(c.paths, PrintString))) == if ValidPaths(c.paths) then Some(c.paths) else None
    ensures GeneratorIn(if c.generator.None? then JNull else JString(c.generator.value)) == Some(c.generator)
  {
    hide IsComponentName, RepositoryPath, ProjectId, ParsedPatterns, DistinctStrings, Strip, IsProjectId;
    PrintedPatterns(c.paths);
  }

  lemma PrintedComponent(c: Component)
    requires NormalComponent(c)
    ensures ParseComponent(PrintComponent(c), true) == if ValidPaths(c.paths) then Some(c) else None
  {
    hide IsComponentName, RepositoryIn, IdIn, PatternsIn, GeneratorIn, ValidPaths, PrintComponent, ParseComponent, NormalComponent, Map;
    PrintedFields(c);
    ComponentFields(c);
  }

  lemma ComponentSnoc(items: seq<Json>, item: Json, generators: bool)
    ensures ParsedComponents(items + [item], generators) ==
              match ParsedComponents(items, generators)
              case None => None
              case Some(components) =>
                match ParseComponent(item, generators)
                case None => None
                case Some(c) => if Fresh(components, c) then Some(components + [c]) else None
  {
    hide ParseComponent, Fresh;
    assert (items + [item])[..|items|] == items;
  }

  /** Nothing is repeated among the components. */
  ghost predicate NothingRepeated(components: seq<Component>) {
    && Distinct(Map(components, ComponentIdOf)) && Distinct(Map(components, CaseFileOf))
    && Distinct(Concat(Map(components, PathsOf)))
  }

  lemma RepeatedSnoc(components: seq<Component>, c: Component)
    requires DistinctStrings(c.paths)
    ensures NothingRepeated(components + [c]) <==> NothingRepeated(components) && Fresh(components, c)
  {
    SeenSnoc(components, c);
    MapSnoc(components, c, ComponentIdOf);
    MapSnoc(components, c, CaseFileOf);
    DistinctAppend(Map(components, ComponentIdOf), [c.componentId]);
    DistinctAppend(Map(components, CaseFileOf), [c.caseFile]);
    DistinctAppend(Concat(Map(components, PathsOf)), c.paths);
  }

  ghost predicate AllPathsValid(components: seq<Component>) {
    forall i :: 0 <= i < |components| ==> ValidPaths(components[i].paths)
  }

  lemma {:induction false} PrintedComponents(components: seq<Component>)
    requires forall i :: 0 <= i < |components| ==> NormalComponent(components[i])
    ensures ParsedComponents(Map(components, PrintComponent), true)
            == if AllPathsValid(components) && NothingRepeated(components) then Some(components) else None
  {
    hide ParseComponent, PrintComponent, NormalComponent, Fresh, ValidPaths, Strip, IsProjectId;
    if components == [] {
      NothingSeen();
    } else {
      var front, c := components[..|components| - 1], components[|components| - 1];
      assert components == front + [c];
      hide ParsedComponents, NothingRepeated, AllPathsValid, Map;
      PrintedComponents(front);
      PrintedComponent(c);
      MapSnoc(front, c, PrintComponent);
      ComponentSnoc(Map(front, PrintComponent), PrintComponent(c), true);
      PathsSnoc(front, c);
      if ValidPaths(c.paths) {
        PathsDistinct(c.paths);
        RepeatedSnoc(front, c);
      }
    }
  }

  lemma PathsDistinct(paths: seq<string>)
    requires ValidPaths(paths)
    ensures DistinctStrings(paths)
  {
  }

  lemma PathsSnoc(components: seq<Component>, c: Component)
    ensures AllPathsValid(components + [c]) <==> AllPathsValid(components) && ValidPaths(c.paths)
  {
    hide ValidPaths;
    var longer := components + [c];
    if AllPathsValid(longer) {
      assert ValidPaths(longer[|components|].paths);
      assert forall i :: 0 <= i < |components| ==> components[i] == longer[i];
    }
  }

  /** Every field of the configuration is in normal form. */
  ghost predicate NormalProject(p: Project) {
    && ValidId(p.projectId) && ValidRelative(p.policyFile) && ValidRelative(p.adapterDirectory) && ValidRelative(p.artifactDirectory)
    && (forall i :: 0 <= i < |p.adapters| ==> ValidAdapter(p.adapters[i]))
    && (forall i :: 0 <= i < |p.components| ==> NormalComponent(p.components[i]))
  }

  lemma GithubFields(p: Project)
    ensures PrintGithub(p).JObject? && PrintGithub(p).fields.Keys == GithubKeys()
    ensures "artifact_retention_days" in GithubKeys() && "components" in GithubKeys()
    ensures PrintGithub(p).fields["artifact_retention_days"] == JInt(p.retentionDays)
    ensures PrintGithub(p).fields["components"] == JArray(Map(p.components, PrintComponent))
  {
    hide Map;
  }

  lemma PrintedGithub(p: Project)
    requires forall i :: 0 <= i < |p.components| ==> NormalComponent(p.components[i])
    ensures GithubIn(PrintGithub(p), true)
            == if 1 <= p.retentionDays <= MAX_RETENTION && |p.components| <= MAX_COMPONENTS
                  && AllPathsValid(p.components) && NothingRepeated(p.components)
               then Some((p.retentionDays, p.components)) else None
  {
    hide NormalComponent, PrintComponent, ParsedComponents, NothingRepeated, AllPathsValid, PrintGithub, GithubKeys;
    PrintedComponents(p.components);
    GithubFields(p);
  }

  function PrintedBasics(p: Project): Basics {
    Basics(JString(p.projectId), JString(p.policyFile), JString(p.adapterDirectory), JString(p.artifactDirectory), JString("disabled"))
  }

  lemma PrintedVersion(p: Project)
    ensures VersionIn(PrintProject(p).fields) == Some(Current)
  {
    hide Map, PrintGithub;
  }

  lemma PrintedKeys(p: Project)
    ensures PrintProject(p).fields.Keys == ProjectKeys()
    ensures BasicsOf(PrintProject(p).fields) == PrintedBasics(p)
    ensures "trusted_adapter_entry_points" in ProjectKeys() && "github" in ProjectKeys()
    ensures PrintProject(p).fields["trusted_adapter_entry_points"] == JArray(Map(p.adapters, PrintAdapter))
    ensures PrintProject(p).fields["github"] == PrintGithub(p)
  {
    hide Map, PrintGithub;
  }

  lemma ProjectFields(p: Project)
    ensures ParseProject(PrintProject(p)) == AssembledFrom(PrintedBasics(p), JArray(Map(p.adapters, PrintAdapter)), PrintGithub(p), true)
  {
    hide Map, PrintGithub, AssembledFrom, Assembled, VersionIn, ProjectKeys, LegacyKeys, BasicsOf, PrintedBasics;
    PrintedVersion(p);
    PrintedKeys(p);
  }

  lemma BasicsAssembled(p: Project, adapters: seq<Adapter>, retention: int, components: seq<Component>)
    requires ValidId(p.projectId) && ValidRelative(p.policyFile)
    requires ValidRelative(p.adapterDirectory) && ValidRelative(p.artifactDirectory)
    ensures Assembled(PrintedBasics(p), adapters, retention, components) ==
              if Resolved(adapters, components)
              then Some(p.(adapters := adapters, retentionDays := retention, components := components)) else None
  {
    hide Resolved, RelativePath, ProjectId, Strip, IsProjectId;
  }

  lemma PrintedParts(p: Project)
    requires NormalProject(p)
    ensures AdaptersIn(JArray(Map(p.adapters, PrintAdapter)), true) == if ValidAdapters(p.adapters) then Some(p.adapters) else None
    ensures GithubIn(PrintGithub(p), true)
            == if 1 <= p.retentionDays <= MAX_RETENTION && ValidComponents(p.components)
               then Some((p.retentionDays, p.components)) else None
  {
    hide ValidAdapter, NormalComponent, ParsedAdapters, NothingRepeated, AllPathsValid, ValidComponents, ValidAdapters,
      ValidId, ValidRelative, PrintGithub, GithubIn, Distinct;
    PrintedAdapters(p.adapters);
    PrintedGithub(p);
    ValidParts(p);
  }

  /** Printing and parsing again gives a normal configuration back when it is
      valid, and nothing otherwise. */
  lemma PrintedProjectParses(p: Project)
    requires NormalProject(p)
    ensures ParseProject(PrintProject(p)) == if ValidProject(p) then Some(p) else None
  {
    hide ValidAdapter, NormalComponent, ValidComponents, ValidAdapters, ValidId, ValidRelative, AdaptersIn, Assembled,
      Resolved, GithubIn, Map, PrintProject, PrintGithub, ParseProject, PrintedBasics;
    ProjectFields(p);
    PrintedParts(p);
    BasicsAssembled(p, p.adapters, p.retentionDays, p.components);
  }

  lemma ValidParts(p: Project)
    requires NormalProject(p)
    ensures ValidComponents(p.components) <==>
              |p.components| <= MAX_COMPONENTS && AllPathsValid(p.components) && NothingRepeated(p.components)
    ensures ValidAdapters(p.adapters) <==> |p.adapters| <= MAX_ADAPTERS && Distinct(Map(p.adapters, AdapterIdOf))
  {
    hide ValidAdapter, NormalComponent, ValidPaths, Distinct;
  }

  // ---------------------------------------------------------------- parsed configurations are valid

  lemma IdInIsValid(value: Json)
    requires IdIn(value).Some?
    ensures ValidId(IdIn(value).value)
  {
    hide Strip, IsProjectId;
    ProjectIdIdempotent(value.s);
  }

  lemma RelativeInIsValid(value: Json)
    requires RelativeIn(value).Some?
    ensures ValidRelative(RelativeIn(value).value)
  {
    hide Strip, RelativePath;
    RelativePathIdempotent(value.s);
  }

  lemma ParsedAdapterIsValid(item: Json, allowGenerators: bool)
    requires ParseAdapter(item, allowGenerators).Some?
    ensures ValidAdapter(ParseAdapter(item, allowGenerators).value)
  {
    hide IsEntryPoint, IdIn, KindIn, AdapterKeys, ValidId;
    var fields := Closed(item, AdapterKeys()).value;
    AdapterKeysHave();
    IdInIsValid(fields["adapter_id"]);
  }

  lemma AdapterKeysHave()
    ensures "adapter_id" in AdapterKeys() && "kind" in AdapterKeys() && "entry_point" in AdapterKeys()
  {
  }

  lemma {:induction false} ParsedAdaptersAreValid(items: seq<Json>, allowGenerators: bool)
    requires ParsedAdapters(items, allowGenerators).Some?
    ensures var adapters := ParsedAdapters(items, allowGenerators).value;
            && |adapters| == |items| && Distinct(Map(adapters, AdapterIdOf))
            && forall i :: 0 <= i < |adapters| ==> ValidAdapter(adapters[i])
  {
    hide ParseAdapter, ValidAdapter;
    if items != [] {
      var front, item := items[..|items| - 1], items[|items| - 1];
      ParsedAdaptersAreValid(front, allowGenerators);
      ParsedAdapterIsValid(item, allowGenerators);
      var adapters, a := ParsedAdapters(front, allowGenerators).value, ParseAdapter(item, allowGenerators).value;
      MapSnoc(adapters, a, AdapterIdOf);
      DistinctAppend(Map(adapters, AdapterIdOf), [a.adapterId]);
    }
  }

  lemma {:induction false} ParsedPatternsAreAccepted(items: seq<Json>)
    requires ParsedPatterns(items).Some?
    ensures var patterns := ParsedPatterns(items).value;
            |patterns| == |items| && forall i :: 0 <= i < |patterns| ==> PatternAccepted(patterns[i])
  {
    hide RepositoryPath, Strip;
    if items != [] {
      ParsedPatternsAreAccepted(items[..|items| - 1]);
      RepositoryPathIdempotent(items[|items| - 1].s, true);
    }
  }

  lemma FieldsAreNormal(id: Json, name: Json, paths: Json, caseFile: Json, generator: Option<Json>)
    requires ComponentFrom(id, name, paths, caseFile, generator).Some?
    ensures ValidComponent(ComponentFrom(id, name, paths, caseFile, generator).value)
    ensures generator.None? ==> ComponentFrom(id, name, paths, caseFile, generator).value.generator == None
  {
    hide IsComponentName, IdIn, ValidId, ParsedPatterns, RepositoryPath, Strip, PatternAccepted, DistinctStrings;
    IdInIsValid(id);
    ParsedPatternsAreAccepted(paths.items);
    RepositoryPathIdempotent(caseFile.s, false);
    if generator.Some? && generator.value != JNull {
      IdInIsValid(generator.value);
    }
  }

  lemma ParsedComponentIsValid(item: Json, generators: bool)
    requires ParseComponent(item, generators).Some?
    ensures ValidComponent(ParseComponent(item, generators).value)
    ensures !generators ==> ParseComponent(item, generators).value.generator == None
  {
    hide ComponentFrom, ComponentKeys, PreviousComponentKeys, ValidComponent;
    var fields := item.fields;
    ComponentKeysHave();
    FieldsAreNormal(fields["component_id"], fields["component"], fields["paths"], fields["case_file"],
                    if generators then Some(fields["case_generator_adapter_id"]) else None);
  }

  lemma ComponentKeysHave()
    ensures forall k :: k in PreviousComponentKeys() ==> k in ComponentKeys()
    ensures "component_id" in PreviousComponentKeys() && "component" in PreviousComponentKeys()
    ensures "paths" in PreviousComponentKeys() && "case_file" in PreviousComponentKeys()
    ensures "case_generator_adapter_id" in ComponentKeys()
  {
  }

  lemma {:induction false} ParsedComponentsAreValid(items: seq<Json>, generators: bool)
    requires ParsedComponents(items, generators).Some?
    ensures var components := ParsedComponents(items, generators).value;
            && |components| == |items| && NothingRepeated(components)
            && (forall i :: 0 <= i < |components| ==> ValidComponent(components[i]))
            && (!generators ==> forall i :: 0 <= i < |components| ==> components[i].generator == None)
  {
    hide ParseComponent, NormalComponent, Fresh;
    if items == [] {
      NothingSeen();
    } else {
      hide NothingRepeated;
      var front, item := items[..|items| - 1], items[|items| - 1];
      ParsedComponentsAreValid(front, generators);
      ParsedComponentIsValid(item, generators);
      RepeatedSnoc(ParsedComponents(front, generators).value, ParseComponent(item, generators).value);
    }
  }

  lemma AssembledIsValid(b: Basics, adapters: seq<Adapter>, retention: int, components: seq<Component>)
    requires Assembled(b, adapters, retention, components).Some?
    requires ValidAdapters(adapters) && ValidComponents(components) && 1 <= retention <= MAX_RETENTION
    ensures ValidProject(Assembled(b, adapters, retention, components).value)
  {
    hide Resolved, IdIn, RelativeIn, ValidId, ValidRelative, ValidAdapters, ValidComponents;
    IdInIsValid(b.projectId);
    RelativeInIsValid(b.policyFile);
    RelativeInIsValid(b.adapterDirectory);
    RelativeInIsValid(b.artifactDirectory);
  }

  lemma GithubIsValid(value: Json, generators: bool)
    requires GithubIn(value, generators).Some?
    ensures 1 <= GithubIn(value, generators).value.0 <= MAX_RETENTION && ValidComponents(GithubIn(value, generators).value.1)
  {
    hide ParsedComponents, ValidComponent, Distinct, Concat, GithubKeys;
    GithubKeysHave();
    ParsedComponentsAreValid(value.fields["components"].items, generators);
  }

  lemma GithubKeysHave()
    ensures "components" in GithubKeys() && "artifact_retention_days" in GithubKeys()
  {
  }

  lemma AdaptersAreValid(value: Json, generators: bool)
    requires AdaptersIn(value, generators).Some?
    ensures ValidAdapters(AdaptersIn(value, generators).value)
  {
    hide ParsedAdapters, ValidAdapter, Distinct;
    ParsedAdaptersAreValid(value.items, generators);
  }

  /** Everything the parser accepts is valid, whatever its version. */
  lemma ParsedProjectIsValid(document: Json)
    requires ParseProject(document).Some?
    ensures ValidProject(ParseProject(document).value)
  {
    hide AdaptersIn, GithubIn, Assembled, ValidProject, VersionIn, BasicsOf, ProjectKeys, LegacyKeys, ValidAdapters, ValidComponents;
    var fields := document.fields;
    if VersionIn(fields) == Some(Legacy) {
      NothingIsValid();
      AssembledIsValid(BasicsOf(fields), [], DEFAULT_RETENTION, []);
    } else {
      ProjectKeysHave();
      var generators := VersionIn(fields) == Some(Current);
      AdaptersAreValid(fields["trusted_adapter_entry_points"], generators);
      GithubIsValid(fields["github"], generators);
      AssembledIsValid(BasicsOf(fields), AdaptersIn(fields["trusted_adapter_entry_points"], generators).value,
                       GithubIn(fields["github"], generators).value.0, GithubIn(fields["github"], generators).value.1);
    }
  }

  lemma NothingIsValid()
    ensures ValidAdapters([]) && ValidComponents([])
  {
  }

  lemma ProjectKeysHave()
    ensures "trusted_adapter_entry_points" in ProjectKeys() && "github" in ProjectKeys() && LegacyKeys() <= ProjectKeys()
  {
  }

  /** Parsing undoes printing for every accepted document, so versions 1.0 and
      2.0 upgrade to a 3.0 document of the same configuration, which prints as
      itself from then on. */
  lemma ParsingUndoesPrinting(document: Json)
    requires ParseProject(document).Some?
    ensures ParseProject(PrintProject(ParseProject(document).value)) == ParseProject(document)
    ensures VersionIn(PrintProject(ParseProject(document).value).fields) == Some(Current)
  {
    hide ParseProject, PrintProject, ValidAdapter, NormalComponent, ValidId, ValidRelative, Resolved, Distinct, ValidPaths;
    ParsedProjectIsValid(document);
    PrintedProjectParses(ParseProject(document).value);
    PrintedVersion(ParseProject(document).value);
  }
}
