/** Registration of components and adapters in a stored project configuration,
    src/causure/onboarding.py, and what every run of registrations keeps. */
module ProjectStore {
  import opened Vocabulary
  import opened Sequences
  import opened Sorting
  import opened Paths
  import opened Configuration
  import opened JsonTree
  import opened ProjectFile

  datatype Registration =
    | GithubComponent(id: string, component: string, paths: seq<string>, caseFile: string, retention: Option<int>)
    | TrustedAdapter(id: string, kind: string, entryPoint: string, bind: Option<string>)

  function KindNamed(kind: string): Option<AdapterKind> { KindIn(JString(kind), true) }

  /** The normal forms of all the patterns, or nothing. */
  function NormalPatterns(paths: seq<string>): Option<seq<string>> {
    ParsedPatterns(Map(paths, PrintString))
  }

  function Bound(id: string, generator: string): Component -> Component {
    (c: Component) => if c.componentId == id then c.(generator := Some(generator)) else c
  }

  function FindComponent(components: seq<Component>, id: string): Option<Component> {
    if components == [] then None
    else if components[0].componentId == id then Some(components[0])
    else FindComponent(components[1..], id)
  }

  /** The configuration that a registration asks for, before it is validated. */
  function Requested(p: Project, r: Registration): Option<Project> {
    match r
    case GithubComponent(value, component, paths, file, retention) =>
      var id, patterns, caseFile := ProjectId(value), NormalPatterns(paths), RepositoryPath(file, false);
      if id.None? || id.value in Map(p.components, ComponentIdOf) || !IsComponentName(component) then None
      else if paths == [] || patterns.None? || caseFile.None? then None
      else Some(p.(components := p.components + [Component(id.value, component, patterns.value, caseFile.value, None)],
                   retentionDays := if retention.Some? then retention.value else p.retentionDays))
    case TrustedAdapter(value, kindName, entryPoint, bind) =>
      var id, kind := ProjectId(value), KindNamed(kindName);
      if id.None? || id.value in Map(p.adapters, AdapterIdOf) || kind.None? || !IsEntryPoint(entryPoint) then None
      else
        var extended := p.(adapters := p.adapters + [Adapter(id.value, kind.value, entryPoint)]);
        if bind.None? then Some(extended)
        else if kind.value != CaseGenerator || ProjectId(bind.value).None? then None
        else match FindComponent(p.components, ProjectId(bind.value).value)
          case None => None
          case Some(current) =>
            if current.generator.Some? then None
            else Some(extended.(components := Map(p.components, Bound(current.componentId, id.value))))
  }

  /** The document a registration writes, or nothing when it is refused. */
  function Written(document: Json, r: Registration): Option<Json> {
    match ParseProject(document)
    case None => None
    case Some(p) =>
      match Requested(p, r)
      case None => None
      case Some(updated) =>
        match ParseProject(PrintProject(updated))
        case None => None
        case Some(validated) => Some(PrintProject(validated))
  }

  /** The stored configuration file. */
  class Store {
    var document: Json

    constructor (document: Json)
      ensures this.document == document
    {
      this.document := document;
    }

    /** configure_github_component: the whole updated document is parsed again
        before it replaces the old one. */
    method ConfigureGithubComponent(value: string, component: string, paths: seq<string>, file: string, retention: Option<int>)
      returns (ok: bool)
      modifies this
      ensures ok == Written(old(document), GithubComponent(value, component, paths, file, retention)).Some?
      ensures document == if ok then Written(old(document), GithubComponent(value, component, paths, file, retention)).value
                          else old(document)
    {
      hide ParseProject, PrintProject, IsComponentName, ProjectId, RepositoryPath, ParsedPatterns, Strip, IsProjectId;
      var parsed := ParseProject(document);
      if parsed.None? { return false; }
      var p := parsed.value;
      var id := ProjectId(value);
      if id.None? || id.value in Map(p.components, ComponentIdOf) { return false; }
      if !IsComponentName(component) || paths == [] { return false; }
      var patterns := NormalizePatterns(paths);
      var caseFile := RepositoryPath(file, false);
      if patterns.None? || caseFile.None? { return false; }
      var mapping := Component(id.value, component, patterns.value, caseFile.value, None);
      var days := if retention.Some? then retention.value else p.retentionDays;
      var updated := p.(components := p.components + [mapping], retentionDays := days);
      var validated := ParseProject(PrintProject(updated));
      if validated.None? { return false; }
      document := PrintProject(validated.value);
      return true;
    }

    /** configure_trusted_adapter. */
    method ConfigureTrustedAdapter(value: string, kindName: string, entryPoint: string, bind: Option<string>) returns (ok: bool)
      modifies this
      ensures ok == Written(old(document), TrustedAdapter(value, kindName, entryPoint, bind)).Some?
      ensures document == if ok then Written(old(document), TrustedAdapter(value, kindName, entryPoint, bind)).value
                          else old(document)
    {
      hide ParseProject, PrintProject, IsEntryPoint, KindIn, ProjectId, Strip, IsProjectId;
      var parsed := ParseProject(document);
      if parsed.None? { return false; }
      var p := parsed.value;
      var id := ProjectId(value);
      if id.None? || id.value in Map(p.adapters, AdapterIdOf) { return false; }
      var kind := KindNamed(kindName);
      if kind.None? || !IsEntryPoint(entryPoint) { return false; }
      var components := p.components;
      if bind.Some? {
        if kind.value != CaseGenerator { return false; }
        var target := ProjectId(bind.value);
        if target.None? { return false; }
        var current := FindComponent(p.components, target.value);
        if current.None? || current.value.generator.Some? { return false; }
        components := Map(p.components, Bound(current.value.componentId, id.value));
      }
      var adapter := Adapter(id.value, kind.value, entryPoint);
      var updated := p.(adapters := p.adapters + [adapter], components := components);
      var validated := ParseProject(PrintProject(updated));
      if validated.None? { return false; }
      document := PrintProject(validated.value);
      return true;
    }
  }

  method NormalizePatterns(paths: seq<string>) returns (patterns: Option<seq<string>>)
    ensures patterns == NormalPatterns(paths)
  {
    hide RepositoryPath, Strip;
    var normalized: seq<string> := [];
    var items := Map(paths, PrintString);
    for i := 0 to |paths|
      invariant ParsedPatterns(items[..i]) == Some(normalized)
    {
      assert items[..i + 1][..i] == items[..i];
      var pattern := RepositoryPath(paths[i], true);
      if pattern.None? {
        PatternErrorsStay(items, i + 1);
        return None;
      }
      normalized := normalized + [pattern.value];
    }
    assert items[..|paths|] == items;
    return Some(normalized);
  }

  lemma {:induction false} PatternErrorsStay(items: seq<Json>, i: nat)
    requires i <= |items| && ParsedPatterns(items[..i]).None?
    ensures ParsedPatterns(items).None?
  {
    if i == |items| {
      assert items[..i] == items;
    } else {
      assert items[..|items| - 1][..i] == items[..i];
      PatternErrorsStay(items[..|items| - 1], i);
    }
  }

  // ---------------------------------------------------------------- what a registration does

  lemma {:induction false} FoundComponent(components: seq<Component>, id: string)
    ensures FindComponent(components, id).Some? ==>
              FindComponent(components, id).value in components && FindComponent(components, id).value.componentId == id
    ensures FindComponent(components, id).None? <==> id !in Map(components, ComponentIdOf)
  {
    if components != [] {
      assert components == [components[0]] + components[1..];
      assert Map(components, ComponentIdOf) == [components[0].componentId] + Map(components[1..], ComponentIdOf);
      if components[0].componentId != id {
        FoundComponent(components[1..], id);
      }
    }
  }

  lemma RequestIsNormal(p: Project, r: Registration)
    requires ValidProject(p) && Requested(p, r).Some?
    ensures NormalProject(Requested(p, r).value)
  {
    hide ValidId, ValidRelative, Resolved, Distinct, Concat, ParsedPatterns, PatternAccepted, IsComponentName, IsEntryPoint,
      KindIn, RepositoryPath, ProjectId, Strip, IsProjectId, DistinctStrings;
    match r
    case GithubComponent(value, component, paths, file, retention) =>
      IdIsValid(value);
      ParsedPatternsAreAccepted(Map(paths, PrintString));
      RepositoryPathIdempotent(file, false);
    case TrustedAdapter(value, kindName, entryPoint, bind) =>
      IdIsValid(value);
  }

  lemma IdIsValid(value: string)
    requires ProjectId(value).Some?
    ensures ValidId(ProjectId(value).value)
  {
    ProjectIdIdempotent(value);
  }

  /** A registration writes the configuration it asks for exactly when that is
      valid as a whole, and refuses it otherwise. */
  lemma RegistrationIsExact(document: Json, r: Registration)
    requires ParseProject(document).Some?
    ensures var requested := Requested(ParseProject(document).value, r);
            && (Written(document, r).Some? <==> requested.Some? && ValidProject(requested.value))
            && (Written(document, r).Some? ==> ParseProject(Written(document, r).value) == requested)
  {
    hide ParseProject, PrintProject, Requested, ValidProject, NormalProject;
    var p := ParseProject(document).value;
    ParsedProjectIsValid(document);
    if Requested(p, r).Some? {
      RequestIsNormal(p, r);
      PrintedProjectParses(Requested(p, r).value);
    }
  }

  /** q is p with more registered: adapters and components only join at the end,
      and an existing component changes at most by gaining a case generator. */
  ghost predicate Evolves(p: Project, q: Project) {
    && q == p.(adapters := q.adapters, components := q.components, retentionDays := q.retentionDays)
    && p.adapters <= q.adapters && |p.components| <= |q.components|
    && forall i :: 0 <= i < |p.components| ==>
         q.components[i] == p.components[i] || (p.components[i].generator.None? && q.components[i].generator.Some?
           && q.components[i] == p.components[i].(generator := q.components[i].generator))
  }

  lemma OnlyOneIsBound(components: seq<Component>, id: string, i: nat)
    requires Distinct(Map(components, ComponentIdOf)) && i < |components| && components[i].componentId == id
    ensures FindComponent(components, id) == Some(components[i])
  {
    FoundComponent(components, id);
    assert Map(components, ComponentIdOf)[i] == id;
    var current := FindComponent(components, id).value;
    var k :| 0 <= k < |components| && components[k] == current;
    SameId(components, i, k);
  }

  lemma RequestEvolves(p: Project, r: Registration)
    requires Requested(p, r).Some? && Distinct(Map(p.components, ComponentIdOf))
    ensures Evolves(p, Requested(p, r).value)
  {
    hide ParsedPatterns, IsComponentName, IsEntryPoint, KindIn, RepositoryPath, ProjectId, Strip, IsProjectId, Distinct, FindComponent;
    if r.TrustedAdapter? && r.bind.Some? {
      var id := ProjectId(r.bind.value).value;
      FoundComponent(p.components, id);
      forall i | 0 <= i < |p.components| && p.components[i].componentId == id ensures p.components[i].generator.None? {
        OnlyOneIsBound(p.components, id, i);
      }
    }
  }

  lemma SameId(components: seq<Component>, i: nat, k: nat)
    requires Distinct(Map(components, ComponentIdOf)) && i < |components| && k < |components|
    requires components[i].componentId == components[k].componentId
    ensures i == k
  {
    var ids := Map(components, ComponentIdOf);
    assert ids[i] == ids[k];
  }

  lemma EvolvesTransitive(p: Project, q: Project, s: Project)
    requires Evolves(p, q) && Evolves(q, s)
    ensures Evolves(p, s)
  {
  }

  lemma {:induction false} PatternsAreStripped(items: seq<Json>)
    requires ParsedPatterns(items).Some?
    ensures |ParsedPatterns(items).value| == |items|
    ensures forall i :: 0 <= i < |items| ==> items[i].JString? && ParsedPatterns(items).value[i] == Strip(items[i].s)
  {
    hide Strip;
    if items != [] {
      PatternsAreStripped(items[..|items| - 1]);
    }
  }

  /** An accepted component joins the others at the end, with the stripped texts
      of the call; nothing else changes but the retention, and that only when one
      is given. */
  lemma ComponentJoins(document: Json, value: string, component: string, paths: seq<string>, file: string, retention: Option<int>)
    requires ParseProject(document).Some?
    requires Written(document, GithubComponent(value, component, paths, file, retention)).Some?
    ensures var p := ParseProject(document).value;
            var after := ParseProject(Written(document, GithubComponent(value, component, paths, file, retention)).value);
            && after.Some? && |after.value.components| == |p.components| + 1 && |after.value.components[|p.components|].paths| == |paths|
            && (forall i :: 0 <= i < |p.components| ==> after.value.components[i] == p.components[i])
            && (forall i :: 0 <= i < |paths| ==> after.value.components[|p.components|].paths[i] == Strip(paths[i]))
            && after.value.components[|p.components|]
               == Component(Strip(value), component, after.value.components[|p.components|].paths, Strip(file), None)
            && after.value.retentionDays == (match retention case Some(days) => days case None => p.retentionDays)
            && after.value == p.(components := after.value.components, retentionDays := after.value.retentionDays)
  {
    hide ParseProject, PrintProject, IsComponentName, Strip, IsProjectId, ParsedPatterns, Written, ValidProject;
    RegistrationIsExact(document, GithubComponent(value, component, paths, file, retention));
    PatternsAreStripped(Map(paths, PrintString));
  }

  /** An accepted adapter joins the others at the end; if it is bound, exactly the
      component of the named identifier gets it as its case generator. */
  lemma AdapterJoins(document: Json, value: string, kindName: string, entryPoint: string, bind: Option<string>)
    requires ParseProject(document).Some? && Written(document, TrustedAdapter(value, kindName, entryPoint, bind)).Some?
    ensures var p := ParseProject(document).value;
            var after := ParseProject(Written(document, TrustedAdapter(value, kindName, entryPoint, bind)).value);
            && after.Some? && |after.value.adapters| == |p.adapters| + 1 && |after.value.components| == |p.components|
            && (forall i :: 0 <= i < |p.adapters| ==> after.value.adapters[i] == p.adapters[i])
            && after.value.adapters[|p.adapters|] == Adapter(Strip(value), after.value.adapters[|p.adapters|].kind, entryPoint)
            && KindIsNamed(after.value.adapters[|p.adapters|].kind, kindName)
            && (forall i :: 0 <= i < |p.components| ==>
                  if bind.Some? && p.components[i].componentId == Strip(bind.value)
                  then p.components[i].generator == None
                       && after.value.components[i] == p.components[i].(generator := Some(Strip(value)))
                  else after.value.components[i] == p.components[i])
            && after.value == p.(adapters := after.value.adapters, components := after.value.components)
  {
    hide ParseProject, PrintProject, IsEntryPoint, Strip, IsProjectId, Written, ValidProject, FindComponent, Distinct;
    var p, r := ParseProject(document).value, TrustedAdapter(value, kindName, entryPoint, bind);
    RegistrationIsExact(document, r);
    ParsedProjectIsValid(document);
    ValidIds(p);
    if bind.Some? {
      FoundComponent(p.components, Strip(bind.value));
      forall i | 0 <= i < |p.components| && p.components[i].componentId == Strip(bind.value)
        ensures p.components[i].generator == None
      {
        OnlyOneIsBound(p.components, Strip(bind.value), i);
      }
    }
  }

  predicate KindIsNamed(kind: AdapterKind, name: string) {
    match kind
    case Replay => name == "replay"
    case Evaluator => name == "evaluator"
    case CaseGenerator => name == "case_generator"
  }

  // ---------------------------------------------------------------- every run of registrations

  /** The document after these registrations, refused ones leaving it alone. */
  function After(document: Json, registrations: seq<Registration>): Json {
    if registrations == [] then document else
    var before := After(document, registrations[..|registrations| - 1]);
    var written := Written(before, registrations[|registrations| - 1]);
    if written.Some? then written.value else before
  }

  /** Over every run of registrations the configuration stays valid: identifiers,
      case files and patterns unique, generator references resolved. And it only
      evolves: nothing registered is lost or rebound. */
  lemma {:induction false} RunsKeepProjectsValid(document: Json, registrations: seq<Registration>)
    requires ParseProject(document).Some?
    ensures var after := ParseProject(After(document, registrations));
            after.Some? && ValidProject(after.value) && Evolves(ParseProject(document).value, after.value)
  {
    hide ParseProject, PrintProject, Written, ValidProject, Evolves, Requested;
    if registrations == [] {
      ParsedProjectIsValid(document);
      EvolvesReflexive(ParseProject(document).value);
    } else {
      var front, r := registrations[..|registrations| - 1], registrations[|registrations| - 1];
      RunsKeepProjectsValid(document, front);
      var before := After(document, front);
      RegistrationIsExact(before, r);
      if Written(before, r).Some? {
        var p, q := ParseProject(before).value, Requested(ParseProject(before).value, r).value;
        ValidIds(p);
        RequestEvolves(p, r);
        EvolvesTransitive(ParseProject(document).value, p, q);
      }
    }
  }

  lemma EvolvesReflexive(p: Project)
    ensures Evolves(p, p)
  {
  }

  lemma ValidIds(p: Project)
    requires ValidProject(p)
    ensures Distinct(Map(p.components, ComponentIdOf))
  {
    hide ValidComponent, Resolved, ValidAdapters, Concat, Distinct;
  }

  // ---------------------------------------------------------------- where runs begin

  /** The configuration that initialize_project writes. */
  function InitialProject(id: string): Project {
    Project(id, "policy.json", "adapters", "artifacts", [], DEFAULT_RETENTION, [])
  }

  lemma NameIsRelative(name: string)
    requires name != "" && '/' !in name && '\\' !in name && name != "." && name != ".."
    requires forall i :: 0 <= i < |name| ==> 'a' <= name[i] <= 'z' || name[i] == '.'
    ensures ValidRelative(name)
  {
    assert !IsSpace(name[0]) && !IsSpace(name[|name| - 1]);
    assert StripLeft(name) == name && StripRight(name) == name;
    SplitFirst(name, "");
    assert name + "" == name && Split("") == [""];
    assert Split(name) == [name];
  }

  lemma FixedNames()
    ensures ValidRelative("policy.json") && ValidRelative("adapters") && ValidRelative("artifacts")
  {
    hide ValidRelative;
    NameIsRelative("policy.json");
    NameIsRelative("adapters");
    NameIsRelative("artifacts");
  }

  lemma InitialProjectIsValid(id: string)
    requires ValidId(id)
    ensures ValidProject(InitialProject(id)) && NormalProject(InitialProject(id))
  {
    hide ValidRelative, ValidId, ValidAdapters, ValidComponents;
    FixedNames();
    NothingIsValid();
  }

  /** A new project parses back, whatever the directory it is derived from is called. */
  lemma InitialProjectParses(name: string)
    ensures var p := InitialProject(DerivedId(name)); ParseProject(PrintProject(p)) == Some(p)
  {
    hide ParseProject, PrintProject, DerivedId, ProjectId, InitialProject, ValidProject, NormalProject, IsProjectId, Strip;
    DerivedIdIsValid(name);
    InitialProjectIsValid(DerivedId(name));
    PrintedProjectParses(InitialProject(DerivedId(name)));
  }

  /** From a new project on, every run of registrations stays valid and keeps the
      project's identifier and directories. */
  lemma RunsFromInitialStayValid(name: string, registrations: seq<Registration>)
    ensures var p := InitialProject(DerivedId(name));
            var after := ParseProject(After(PrintProject(p), registrations));
            && after.Some? && ValidProject(after.value)
            && after.value == p.(adapters := after.value.adapters, components := after.value.components,
                                 retentionDays := after.value.retentionDays)
  {
    hide ParseProject, PrintProject, ValidProject, DerivedId, After;
    InitialProjectParses(name);
    RunsKeepProjectsValid(PrintProject(InitialProject(DerivedId(name))), registrations);
  }

  // ---------------------------------------------------------------- exactly which registrations are accepted

  predicate AllDiffer(s: seq<string>) {
    forall i, j :: 0 <= i < j < |s| ==> s[i] != s[j]
  }

  /** A component is accepted exactly when its fields are well formed, nothing of
      it is taken, and there is room. */
  lemma ComponentAcceptedExactly(document: Json, value: string, component: string, paths: seq<string>, file: string, retention: Option<int>)
    requires ParseProject(document).Some?
    ensures var p, id := ParseProject(document).value, ProjectId(value);
            var patterns, caseFile := NormalPatterns(paths), RepositoryPath(file, false);
            var days := if retention.Some? then retention.value else p.retentionDays;
            Written(document, GithubComponent(value, component, paths, file, retention)).Some? <==>
              && id.Some? && IsComponentName(component) && patterns.Some? && caseFile.Some?
              && 1 <= |paths| <= 32 && AllDiffer(patterns.value) && |p.components| < 128 && 1 <= days <= 90
              && Fresh(p.components, Component(id.value, component, patterns.value, caseFile.value, None))
  {
    hide ParseProject, PrintProject, ProjectId, RepositoryPath, ParsedPatterns, IsComponentName, ValidId, ValidRelative, AllDiffer,
      ValidAdapters, ValidComponent, NormalComponent, Distinct, Concat, ValidPaths, Fresh, Written, NothingRepeated, NormalProject, Strip,
      IsProjectId, ValidProject;
    var p, r := ParseProject(document).value, GithubComponent(value, component, paths, file, retention);
    ParsedProjectIsValid(document);
    RegistrationIsExact(document, r);
    NoPatterns();
    if NormalPatterns(paths).Some? { PatternsFit(paths); }
    if Requested(p, r).Some? {
      var q := Requested(p, r).value;
      var c := q.components[|p.components|];
      RequestIsNormal(p, r);
      ComponentsGrow(p, q, c);
    } else if ProjectId(value).Some? && IsComponentName(component) && NormalPatterns(paths).Some? && RepositoryPath(file, false).Some? {
      NotRequested(p, value, component, paths, file, retention);
    }
  }

  lemma PatternsFit(paths: seq<string>)
    requires NormalPatterns(paths).Some?
    ensures ValidPaths(NormalPatterns(paths).value) <==> 1 <= |paths| <= 32 && AllDiffer(NormalPatterns(paths).value)
  {
    hide ParsedPatterns;
    PatternsAreStripped(Map(paths, PrintString));
  }

  lemma NoPatterns()
    ensures !ValidPaths([])
  {
  }

  lemma NotRequested(p: Project, value: string, component: string, paths: seq<string>, file: string, retention: Option<int>)
    requires Requested(p, GithubComponent(value, component, paths, file, retention)).None?
    requires ProjectId(value).Some? && IsComponentName(component) && NormalPatterns(paths).Some? && RepositoryPath(file, false).Some?
    ensures !(ValidPaths(NormalPatterns(paths).value)
              && Fresh(p.components, Component(ProjectId(value).value, component, NormalPatterns(paths).value,
                                               RepositoryPath(file, false).value, None)))
  {
    hide ProjectId, RepositoryPath, IsComponentName;
    assert paths == [] ==> Map(paths, PrintString) == [];
  }

  lemma ComponentsGrow(p: Project, q: Project, c: Component)
    requires ValidProject(p) && NormalProject(q) && c.generator == None
    requires q == p.(components := p.components + [c], retentionDays := q.retentionDays)
    ensures ValidProject(q) <==>
              && 1 <= q.retentionDays <= MAX_RETENTION && |p.components| < MAX_COMPONENTS
              && ValidPaths(c.paths) && Fresh(p.components, c)
  {
    hide ValidId, ValidRelative, ValidAdapter, NormalComponent, ValidPaths, Distinct, Fresh, NothingRepeated, AllPathsValid,
      ValidComponents, ValidAdapters, Written;
    ValidIsNormal(p);
    ValidParts(p);
    ValidParts(q);
    PathsSnoc(p.components, c);
    if ValidPaths(c.paths) {
      PathsDistinct(c.paths);
      RepeatedSnoc(p.components, c);
    }
    assert Resolved(q.adapters, q.components) by {
      forall i | 0 <= i < |q.components| && q.components[i].generator.Some?
        ensures IsGenerator(q.adapters, q.components[i].generator.value)
      {
        assert q.components[i] == p.components[i];
      }
    }
  }

  lemma ValidIsNormal(p: Project)
    requires ValidProject(p)
    ensures NormalProject(p)
  {
    hide ValidId, ValidRelative, ValidAdapter, NormalComponent, ValidPaths, Distinct, Resolved, Concat;
  }

  lemma BoundKeepsComponents(components: seq<Component>, id: string, generator: string)
    requires ValidComponents(components) && ValidId(generator)
    ensures ValidComponents(Map(components, Bound(id, generator)))
  {
    hide ValidId, Distinct, Concat, IsComponentName, RepositoryPath, PatternAccepted, ValidPaths;
    var bound := Map(components, Bound(id, generator));
    assert Map(bound, ComponentIdOf) == Map(components, ComponentIdOf);
    assert Map(bound, CaseFileOf) == Map(components, CaseFileOf);
    assert Map(bound, PathsOf) == Map(components, PathsOf);
  }

  lemma StillResolved(adapters: seq<Adapter>, adapter: Adapter, components: seq<Component>, target: Option<string>)
    requires Resolved(adapters, components) && (target.Some? ==> adapter.kind == CaseGenerator)
    ensures Resolved(adapters + [adapter],
                     if target.None? then components else Map(components, Bound(target.value, adapter.adapterId)))
  {
    var more := adapters + [adapter];
    var after := if target.None? then components else Map(components, Bound(target.value, adapter.adapterId));
    forall i | 0 <= i < |after| && after[i].generator.Some? ensures IsGenerator(more, after[i].generator.value) {
      if after[i] == components[i] {
        var k :| 0 <= k < |adapters| && adapters[k].adapterId == components[i].generator.value && adapters[k].kind == CaseGenerator;
        assert more[k] == adapters[k];
      } else {
        assert more[|adapters|] == adapter;
      }
    }
  }

  lemma AdaptersGrow(adapters: seq<Adapter>, adapter: Adapter)
    requires ValidAdapters(adapters) && ValidAdapter(adapter) && adapter.adapterId !in Map(adapters, AdapterIdOf)
    ensures ValidAdapters(adapters + [adapter]) <==> |adapters| < MAX_ADAPTERS
  {
    hide ValidAdapter;
    MapSnoc(adapters, adapter, AdapterIdOf);
    DistinctAppend(Map(adapters, AdapterIdOf), [adapter.adapterId]);
  }

  // -- identifiers and entry points, by character code

  /** 1 to 64 lower-case letters and digits, with hyphens inside. */
  predicate SpelledId(s: string) {
    && 1 <= |s| <= 64 && s[0] != '-' && s[|s| - 1] != '-'
    && forall i :: 0 <= i < |s| ==> 97 <= s[i] as int <= 122 || 48 <= s[i] as int <= 57 || s[i] == '-'
  }

  /** A letter or underscore, then at most 126 letters, digits, underscores and dots. */
  ghost predicate SpelledName(s: string) {
    exists first, rest: string :: s == [first] + rest && |rest| <= 126 && (IsAsciiLetter(first) || first == '_') && IsNameText(rest)
  }

  predicate IsNameText(s: string) {
    forall c :: c in s ==> IsAsciiLetter(c) || 48 <= c as int <= 57 || c in {'_', '.'}
  }

  predicate IsAsciiLetter(c: char) {
    65 <= c as int <= 90 || 97 <= c as int <= 122
  }

  ghost predicate SpelledEntryPoint(s: string) {
    exists path, callable :: s == path + ":" + callable && SpelledName(path) && SpelledName(callable)
  }

  lemma NameTextAt(s: string, rest: string)
    requires |s| == |rest| + 1 && rest == s[1..]
    ensures IsNameText(rest) <==>
              forall i :: 0 < i < |s| ==> 'A' <= s[i] <= 'Z' || 'a' <= s[i] <= 'z' || '0' <= s[i] <= '9' || s[i] == '_' || s[i] == '.'
  {
    forall c | c in rest ensures exists i :: 0 < i < |s| && s[i] == c {
      var k :| 0 <= k < |rest| && rest[k] == c;
      assert s[k + 1] == c;
    }
    assert forall i :: 0 < i < |s| ==> s[i] == rest[i - 1] && rest[i - 1] in rest;
  }

  lemma NameSpelled(s: string)
    ensures IsEntryName(s) <==> SpelledName(s)
  {
    hide IsNameText;
    if s != "" {
      NameTextAt(s, s[1..]);
      assert s == [s[0]] + s[1..];
    }
    if first, rest: string :| s == [first] + rest && |rest| <= 126 && (IsAsciiLetter(first) || first == '_') && IsNameText(rest) {
      assert rest == s[1..] && first == s[0];
    }
  }

  lemma EntryPointSpelled(s: string)
    ensures IsEntryPoint(s) <==> SpelledEntryPoint(s)
  {
    hide IsEntryName, SpelledName;
    if i :| 0 <= i < |s| && s[i] == ':' && IsEntryName(s[..i]) && IsEntryName(s[i + 1..]) {
      NameSpelled(s[..i]);
      NameSpelled(s[i + 1..]);
      assert s == s[..i] + ":" + s[i + 1..];
    }
    if path, callable :| s == path + ":" + callable && SpelledName(path) && SpelledName(callable) {
      var i := |path|;
      NameSpelled(path);
      NameSpelled(callable);
      assert s[..i] == path && s[i] == ':' && s[i + 1..] == callable;
    }
  }

  lemma IdSpelled(value: string)
    ensures ProjectId(value) == if SpelledId(Strip(value)) then Some(Strip(value)) else None
  {
    hide Strip;
  }

  /** The identifier is derivable and unused, the kind known, the entry point
      well formed; and a binding is of a case generator to an existing component
      that has none. */
  ghost predicate AdapterFits(p: Project, value: string, kindName: string, entryPoint: string, bind: Option<string>) {
    && SpelledId(Strip(value)) && (forall a :: a in p.adapters ==> a.adapterId != Strip(value))
    && kindName in {"replay", "evaluator", "case_generator"} && SpelledEntryPoint(entryPoint)
    && (bind.Some? ==>
          && kindName == "case_generator" && SpelledId(Strip(bind.value))
          && exists c :: c in p.components && c.componentId == Strip(bind.value) && c.generator == None)
  }

  lemma TakenIds(adapters: seq<Adapter>, id: string)
    ensures id !in Map(adapters, AdapterIdOf) <==> forall a :: a in adapters ==> a.adapterId != id
  {
    if id in Map(adapters, AdapterIdOf) {
      var i :| 0 <= i < |adapters| && Map(adapters, AdapterIdOf)[i] == id;
      assert adapters[i] in adapters;
    }
    if a :| a in adapters && a.adapterId == id {
      var i :| 0 <= i < |adapters| && adapters[i] == a;
      assert Map(adapters, AdapterIdOf)[i] == id;
    }
  }

  lemma UnboundComponent(components: seq<Component>, id: string)
    requires Distinct(Map(components, ComponentIdOf))
    ensures FindComponent(components, id).Some? && FindComponent(components, id).value.generator.None?
            <==> exists c :: c in components && c.componentId == id && c.generator == None
  {
    hide Distinct, FindComponent;
    FoundComponent(components, id);
    if c :| c in components && c.componentId == id && c.generator == None {
      var i :| 0 <= i < |components| && components[i] == c;
      OnlyOneIsBound(components, id, i);
    }
  }

  lemma KnownKinds(kindName: string)
    ensures KindNamed(kindName).Some? <==> kindName in {"replay", "evaluator", "case_generator"}
    ensures KindNamed(kindName) == Some(CaseGenerator) <==> kindName == "case_generator"
  {
  }

  lemma RequestableAdapter(p: Project, value: string, kindName: string, entryPoint: string, bind: Option<string>)
    requires ValidProject(p)
    ensures Requested(p, TrustedAdapter(value, kindName, entryPoint, bind)).Some? <==> AdapterFits(p, value, kindName, entryPoint, bind)
  {
    hide ProjectId, IsEntryPoint, KindNamed, Distinct, Map, Strip, IsProjectId, FindComponent, SpelledId, SpelledEntryPoint;
    KnownKinds(kindName);
    IdSpelled(value);
    if bind.Some? { IdSpelled(bind.value); }
    EntryPointSpelled(entryPoint);
    if ProjectId(value).Some? { TakenIds(p.adapters, ProjectId(value).value); }
    if bind.Some? && ProjectId(bind.value).Some? { UnboundComponent(p.components, ProjectId(bind.value).value); }
  }

  /** An adapter is accepted exactly when its fields fit the stored configuration
      and there is room: binding it never breaks a reference. */
  lemma AdapterAcceptedExactly(document: Json, value: string, kindName: string, entryPoint: string, bind: Option<string>)
    requires ParseProject(document).Some?
    ensures var p, r := ParseProject(document).value, TrustedAdapter(value, kindName, entryPoint, bind);
            Written(document, r).Some? <==> AdapterFits(p, value, kindName, entryPoint, bind) && |p.adapters| < 32
  {
    hide AdapterFits, ParseProject, PrintProject, ProjectId, IsEntryPoint, KindIn, ValidRelative, Strip, IsProjectId,
      ValidAdapters, ValidComponents, Resolved, NormalProject, Written;
    var p, r := ParseProject(document).value, TrustedAdapter(value, kindName, entryPoint, bind);
    ParsedProjectIsValid(document);
    RegistrationIsExact(document, r);
    RequestableAdapter(p, value, kindName, entryPoint, bind);
    if Requested(p, r).Some? {
      var q := Requested(p, r).value;
      var adapter := q.adapters[|p.adapters|];
      IdIsValid(value);
      AdaptersGrow(p.adapters, adapter);
      if bind.None? {
        StillResolved(p.adapters, adapter, p.components, None);
      } else {
        FoundComponent(p.components, ProjectId(bind.value).value);
        StillResolved(p.adapters, adapter, p.components, ProjectId(bind.value));
        BoundKeepsComponents(p.components, ProjectId(bind.value).value, adapter.adapterId);
      }
    }
  }
}
