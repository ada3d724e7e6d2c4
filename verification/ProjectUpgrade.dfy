/** Project configurations as documents, src/causure/onboarding.py: older
    versions against the newest one, and what a printed document leaves of the
    one that was parsed. */
module ProjectUpgrade {
  import opened Vocabulary
  import opened Sequences
  import opened Paths
  import opened Configuration
  import opened JsonTree
  import opened ProjectFile

  // ---------------------------------------------------------------- version 2.0

  function WithoutGenerator(item: Json): Json {
    if item.JObject? then JObject(item.fields["case_generator_adapter_id" := JNull]) else item
  }

  function UpgradedGithub(github: Json): Json {
    if github.JObject? && "components" in github.fields && github.fields["components"].JArray? then
      JObject(github.fields["components" := JArray(Map(github.fields["components"].items, WithoutGenerator))])
    else github
  }

  /** The same fields as a 3.0 document, with no case generator anywhere. */
  function Upgraded(document: Json): Json
    requires document.JObject?
  {
    var newest := document.fields["schema_version" := JString("3.0")];
    if "github" in newest then JObject(newest["github" := UpgradedGithub(newest["github"])]) else JObject(newest)
  }

  predicate NamesGenerator(item: Json) {
    item.JObject? && "case_generator_adapter_id" in item.fields
  }

  predicate IsGeneratorAdapter(item: Json) {
    item.JObject? && "kind" in item.fields && item.fields["kind"] == JString("case_generator")
  }

  function ItemsUnder(fields: map<string, Json>, key: string): seq<Json> {
    if key in fields && fields[key].JArray? then fields[key].items else []
  }

  predicate AnyOf(items: seq<Json>, p: Json -> bool) {
    exists item :: item in items && p(item)
  }

  lemma AnySnoc(front: seq<Json>, last: Json, p: Json -> bool)
    ensures AnyOf(front + [last], p) <==> AnyOf(front, p) || p(last)
    ensures !AnyOf([], p)
  {
    if p(last) { assert last in front + [last]; }
    if item :| item in front && p(item) { assert item in front + [last]; }
  }

  /** The document uses what version 3.0 introduced. */
  predicate UsesGenerators(fields: map<string, Json>) {
    || AnyOf(ItemsUnder(fields, "trusted_adapter_entry_points"), IsGeneratorAdapter)
    || ("github" in fields && fields["github"].JObject? && AnyOf(ItemsUnder(fields["github"].fields, "components"), NamesGenerator))
  }

  lemma KindBeforeGenerators(value: Json)
    ensures KindIn(value, false) == if value == JString("case_generator") then None else KindIn(value, true)
  {
  }

  lemma AdapterBeforeGenerators(item: Json)
    ensures ParseAdapter(item, false) == if IsGeneratorAdapter(item) then None else ParseAdapter(item, true)
  {
    hide KindIn, IdIn, IsEntryPoint, AdapterKeys;
    AdapterKeysHave();
    if item.JObject? && "kind" in item.fields { KindBeforeGenerators(item.fields["kind"]); }
  }

  lemma {:induction false} AdaptersBeforeGenerators(items: seq<Json>)
    ensures ParsedAdapters(items, false) == if AnyOf(items, IsGeneratorAdapter) then None else ParsedAdapters(items, true)
  {
    hide AnyOf, ParseAdapter, IsGeneratorAdapter;
    if items == [] {
      AnySnoc([], JNull, IsGeneratorAdapter);
    } else {
      var n := |items| - 1;
      AdaptersBeforeGenerators(items[..n]);
      AdapterBeforeGenerators(items[n]);
      AnySnoc(items[..n], items[n], IsGeneratorAdapter);
      assert items == items[..n] + [items[n]];
    }
  }

  lemma ComponentBeforeGenerators(item: Json)
    ensures NamesGenerator(item) ==> ParseComponent(item, false) == None
    ensures !NamesGenerator(item) ==> ParseComponent(item, false) == ParseComponent(WithoutGenerator(item), true)
  {
    hide IdIn, PatternsIn, RepositoryIn, IsComponentName;
    ComponentKeysHave();
    if item.JObject? && !NamesGenerator(item) {
      var fields, upgraded := item.fields, WithoutGenerator(item).fields;
      assert upgraded.Keys == fields.Keys + {"case_generator_adapter_id"};
      assert fields.Keys == PreviousComponentKeys() <==> upgraded.Keys == ComponentKeys() by { OneKeyMore(fields.Keys); }
    }
  }

  lemma OneKeyMore(keys: set<string>)
    requires "case_generator_adapter_id" !in keys
    ensures keys == PreviousComponentKeys() <==> keys + {"case_generator_adapter_id"} == ComponentKeys()
  {
    var key := "case_generator_adapter_id";
    assert key !in PreviousComponentKeys();
    if keys + {key} == PreviousComponentKeys() + {key} {
      forall k ensures k in keys <==> k in PreviousComponentKeys() {
        assert k in keys + {key} <==> k in PreviousComponentKeys() + {key};
      }
    }
  }

  lemma {:induction false} ComponentsBeforeGenerators(items: seq<Json>)
    ensures ParsedComponents(items, false)
            == if AnyOf(items, NamesGenerator) then None else ParsedComponents(Map(items, WithoutGenerator), true)
  {
    hide AnyOf, ParseComponent, NamesGenerator, WithoutGenerator, Fresh;
    if items == [] {
      AnySnoc([], JNull, NamesGenerator);
    } else {
      var n := |items| - 1;
      ComponentsBeforeGenerators(items[..n]);
      ComponentBeforeGenerators(items[n]);
      AnySnoc(items[..n], items[n], NamesGenerator);
      assert items == items[..n] + [items[n]];
      assert Map(items, WithoutGenerator)[..n] == Map(items[..n], WithoutGenerator);
    }
  }

  lemma GithubBeforeGenerators(github: Json)
    ensures GithubIn(github, false) ==
              if github.JObject? && AnyOf(ItemsUnder(github.fields, "components"), NamesGenerator) then None
              else GithubIn(UpgradedGithub(github), true)
  {
    hide ParsedComponents, NamesGenerator, WithoutGenerator, AnyOf;
    GithubKeysHave();
    AnySnoc([], JNull, NamesGenerator);
    if github.JObject? && "components" in github.fields && github.fields["components"].JArray? {
      ComponentsBeforeGenerators(github.fields["components"].items);
      assert UpgradedGithub(github).fields.Keys == github.fields.Keys;
    }
  }

  /** A 2.0 document parses exactly as the 3.0 document with the same fields and
      no case generators, accepted or refused; one that uses generators is refused. */
  lemma PreviousParsesAsUpgraded(document: Json)
    requires document.JObject? && VersionIn(document.fields) == Some(Previous)
    ensures ParseProject(document) == if UsesGenerators(document.fields) then None else ParseProject(Upgraded(document))
  {
    hide ParsedAdapters, GithubIn, Assembled, IsGeneratorAdapter, NamesGenerator, UpgradedGithub, AnyOf;
    AnySnoc([], JNull, IsGeneratorAdapter);
    var fields, upgraded := document.fields, Upgraded(document).fields;
    ProjectKeysHave();
    VersionsDiffer(fields, upgraded);
    assert upgraded.Keys == fields.Keys;
    if fields.Keys == ProjectKeys() {
      SameBasics(fields, upgraded);
      var adapters := fields["trusted_adapter_entry_points"];
      if adapters.JArray? { AdaptersBeforeGenerators(adapters.items); }
      GithubBeforeGenerators(fields["github"]);
    }
  }

  lemma VersionsDiffer(fields: map<string, Json>, upgraded: map<string, Json>)
    requires "schema_version" in upgraded && upgraded["schema_version"] == JString("3.0")
    ensures VersionIn(upgraded) == Some(Current)
  {
    assert "3.0" != "1.0" && "3.0" != "2.0" by { assert "3.0"[0] == '3' && "1.0"[0] == '1' && "2.0"[0] == '2'; }
  }

  lemma SameBasics(fields: map<string, Json>, upgraded: map<string, Json>)
    requires LegacyKeys() <= fields.Keys && LegacyKeys() <= upgraded.Keys
    requires forall k :: k in LegacyKeys() && k != "schema_version" ==> fields[k] == upgraded[k]
    ensures BasicsOf(fields) == BasicsOf(upgraded)
  {
  }

  // ---------------------------------------------------------------- version 1.0

  /** The same fields as a 3.0 document without adapters and components. */
  function Extended(document: Json): Json
    requires document.JObject?
  {
    JObject(document.fields[
      "schema_version" := JString("3.0")][
      "trusted_adapter_entry_points" := JArray([])][
      "github" := JObject(map["artifact_retention_days" := JInt(30), "components" := JArray([])])])
  }

  lemma NothingHosted()
    ensures GithubIn(JObject(map["artifact_retention_days" := JInt(30), "components" := JArray([])]), true) == Some((30, []))
    ensures AdaptersIn(JArray([]), true) == Some([])
  {
    assert map["artifact_retention_days" := JInt(30), "components" := JArray([])].Keys == GithubKeys();
  }

  lemma ExtendedKeys(fields: map<string, Json>, extended: map<string, Json>)
    requires "schema_version" in fields && "github" !in fields && "trusted_adapter_entry_points" !in fields
    requires extended.Keys == fields.Keys + {"github", "trusted_adapter_entry_points"}
    ensures fields.Keys == LegacyKeys() <==> extended.Keys == ProjectKeys()
  {
    assert "github" !in LegacyKeys() && "trusted_adapter_entry_points" !in LegacyKeys();
    if extended.Keys == ProjectKeys() {
      forall k ensures k in fields.Keys <==> k in LegacyKeys() {
        assert k in extended.Keys <==> k in ProjectKeys();
      }
    }
  }

  /** A 1.0 document parses exactly as the 3.0 document with no adapters, no
      components and 30 days of retention; one that already has them is refused. */
  lemma LegacyParsesAsExtended(document: Json)
    requires document.JObject? && VersionIn(document.fields) == Some(Legacy)
    ensures ParseProject(document) ==
              if "github" in document.fields || "trusted_adapter_entry_points" in document.fields then None
              else ParseProject(Extended(document))
  {
    hide GithubIn, AdaptersIn, Assembled;
    var fields, extended := document.fields, Extended(document).fields;
    VersionsDiffer(fields, extended);
    LegacyKeysLack();
    if "github" !in fields && "trusted_adapter_entry_points" !in fields {
      assert extended.Keys == fields.Keys + {"github", "trusted_adapter_entry_points"};
      ExtendedKeys(fields, extended);
      if fields.Keys == LegacyKeys() {
        SameBasics(fields, extended);
        NothingHosted();
      }
    }
  }

  lemma LegacyKeysLack()
    ensures "github" !in LegacyKeys() && "trusted_adapter_entry_points" !in LegacyKeys() && LegacyKeys() <= ProjectKeys()
  {
  }

  // ---------------------------------------------------------------- what printing leaves of a document

  /** The document with every text stripped of surrounding whitespace. */
  function Trimmed(document: Json): Json {
    match document
    case JString(s) => JString(Strip(s))
    case JArray(items) => JArray(seq(|items|, i requires 0 <= i < |items| => Trimmed(items[i])))
    case JObject(fields) => JObject(map k | k in fields :: Trimmed(fields[k]))
    case _ => document
  }

  lemma TrimmedItems(items: seq<Json>, printed: seq<Json>)
    requires |printed| == |items| && forall i :: 0 <= i < |items| ==> printed[i] == Trimmed(items[i])
    ensures Trimmed(JArray(items)) == JArray(printed)
  {
    assert Trimmed(JArray(items)).items == printed;
  }

  lemma TrimmedFields(fields: map<string, Json>, printed: map<string, Json>)
    requires printed.Keys == fields.Keys && forall k :: k in fields ==> printed[k] == Trimmed(fields[k])
    ensures Trimmed(JObject(fields)) == JObject(printed)
  {
    assert Trimmed(JObject(fields)).fields == printed;
  }

  lemma WordsAreTrimmed(s: string)
    requires s != "" && forall i :: 0 <= i < |s| ==> s[i] == '_' || s[i] == '.' || 'a' <= s[i] <= 'z' || '0' <= s[i] <= '9'
    ensures Trimmed(JString(s)) == JString(s)
  {
    hide Strip;
    Unstripped(s);
  }

  lemma NamesAreTrimmed(name: string)
    requires IsComponentName(name)
    ensures Trimmed(JString(name)) == JString(name)
  {
    hide Trimmed;
    var i :| 0 <= i < 16 && ComponentNames()[i] == name;
    NameIsWord(i);
    WordsAreTrimmed(name);
  }

  lemma NameIsWord(i: nat)
    requires i < 16
    ensures var s := ComponentNames()[i];
            s != "" && forall k :: 0 <= k < |s| ==> s[k] == '_' || s[k] == '.' || 'a' <= s[k] <= 'z' || '0' <= s[k] <= '9'
  {
  }

  lemma KindsAreTrimmed(value: Json)
    requires KindIn(value, true).Some?
    ensures Trimmed(value) == JString(KindName(KindIn(value, true).value))
  {
    hide Trimmed;
    WordsAreTrimmed("replay");
    WordsAreTrimmed("evaluator");
    WordsAreTrimmed("case_generator");
  }

  lemma EntryPointsAreTrimmed(s: string)
    requires IsEntryPoint(s)
    ensures Strip(s) == s
  {
    hide Strip, IsEntryName;
    var i :| 0 <= i < |s| && s[i] == ':' && IsEntryName(s[..i]) && IsEntryName(s[i + 1..]);
    EntryNameEnds(s[..i]);
    EntryNameEnds(s[i + 1..]);
    assert s[0] == s[..i][0] && s[|s| - 1] == s[i + 1..][|s| - i - 2];
    Unstripped(s);
  }

  lemma EntryNameEnds(s: string)
    requires IsEntryName(s)
    ensures s != "" && !IsSpace(s[0]) && !IsSpace(s[|s| - 1])
  {
  }

  lemma PrintedAdapterIsTrimmed(item: Json)
    requires ParseAdapter(item, true).Some?
    ensures PrintAdapter(ParseAdapter(item, true).value) == Trimmed(item)
  {
    hide Trimmed, IsEntryPoint, Strip, IsProjectId, KindIn, KindName;
    AdapterKeysHave();
    var fields := item.fields;
    KindsAreTrimmed(fields["kind"]);
    EntryPointsAreTrimmed(fields["entry_point"].s);
    TrimmedText(fields["adapter_id"]);
    TrimmedText(fields["entry_point"]);
    TrimmedFields(fields, PrintAdapter(ParseAdapter(item, true).value).fields);
  }

  lemma TrimmedText(value: Json)
    ensures value.JString? ==> Trimmed(value) == JString(Strip(value.s))
    ensures value == JNull || value.JInt? ==> Trimmed(value) == value
  {
  }

  lemma {:induction false} PrintedAdaptersAreTrimmed(items: seq<Json>)
    requires ParsedAdapters(items, true).Some?
    ensures Trimmed(JArray(items)) == JArray(Map(ParsedAdapters(items, true).value, PrintAdapter))
  {
    hide ParseAdapter, Trimmed, PrintAdapter;
    var adapters := ParsedAdapters(items, true).value;
    AdaptersItemwise(items);
    forall i | 0 <= i < |items| ensures Map(adapters, PrintAdapter)[i] == Trimmed(items[i]) {
      PrintedAdapterIsTrimmed(items[i]);
    }
    TrimmedItems(items, Map(adapters, PrintAdapter));
  }

  lemma AdaptersStep(items: seq<Json>)
    requires items != [] && ParsedAdapters(items, true).Some?
    ensures var n := |items| - 1;
            && ParsedAdapters(items[..n], true).Some? && ParseAdapter(items[n], true).Some?
            && ParsedAdapters(items, true).value == ParsedAdapters(items[..n], true).value + [ParseAdapter(items[n], true).value]
  {
    hide ParseAdapter;
  }

  lemma {:induction false} AdaptersItemwise(items: seq<Json>)
    requires ParsedAdapters(items, true).Some?
    ensures |ParsedAdapters(items, true).value| == |items|
    ensures forall i :: 0 <= i < |items| ==> ParseAdapter(items[i], true) == Some(ParsedAdapters(items, true).value[i])
  {
    if items != [] {
      hide ParsedAdapters, ParseAdapter;
      var n := |items| - 1;
      AdaptersStep(items);
      AdaptersItemwise(items[..n]);
      forall i | 0 <= i < |items| ensures ParseAdapter(items[i], true) == Some(ParsedAdapters(items, true).value[i]) {
        if i < n { assert items[..n][i] == items[i]; }
      }
    } else {
      hide ParseAdapter;
    }
  }

  lemma PatternsStep(items: seq<Json>)
    requires items != [] && ParsedPatterns(items).Some?
    ensures var n := |items| - 1;
            && ParsedPatterns(items[..n]).Some? && RepositoryIn(items[n], true).Some?
            && ParsedPatterns(items).value == ParsedPatterns(items[..n]).value + [RepositoryIn(items[n], true).value]
  {
    hide RepositoryIn;
  }

  lemma {:induction false} PatternsItemwise(items: seq<Json>)
    requires ParsedPatterns(items).Some?
    ensures |ParsedPatterns(items).value| == |items|
    ensures forall i :: 0 <= i < |items| ==> RepositoryIn(items[i], true) == Some(ParsedPatterns(items).value[i])
  {
    if items != [] {
      hide ParsedPatterns, RepositoryIn;
      var n := |items| - 1;
      PatternsStep(items);
      PatternsItemwise(items[..n]);
      forall i | 0 <= i < |items| ensures RepositoryIn(items[i], true) == Some(ParsedPatterns(items).value[i]) {
        if i < n { assert items[..n][i] == items[i]; }
      }
    } else {
      hide RepositoryIn;
    }
  }

  lemma ComponentsStep(items: seq<Json>)
    requires items != [] && ParsedComponents(items, true).Some?
    ensures var n := |items| - 1;
            && ParsedComponents(items[..n], true).Some? && ParseComponent(items[n], true).Some?
            && ParsedComponents(items, true).value == ParsedComponents(items[..n], true).value + [ParseComponent(items[n], true).value]
  {
    hide ParseComponent, Fresh;
  }

  lemma {:induction false} ComponentsItemwise(items: seq<Json>)
    requires ParsedComponents(items, true).Some?
    ensures |ParsedComponents(items, true).value| == |items|
    ensures forall i :: 0 <= i < |items| ==> ParseComponent(items[i], true) == Some(ParsedComponents(items, true).value[i])
  {
    if items != [] {
      hide ParsedComponents, ParseComponent;
      var n := |items| - 1;
      ComponentsStep(items);
      ComponentsItemwise(items[..n]);
      forall i | 0 <= i < |items| ensures ParseComponent(items[i], true) == Some(ParsedComponents(items, true).value[i]) {
        if i < n { assert items[..n][i] == items[i]; }
      }
    } else {
      hide ParseComponent;
    }
  }

  lemma PrintedPatternsAreTrimmed(value: Json)
    requires PatternsIn(value).Some?
    ensures Trimmed(value) == JArray(Map(PatternsIn(value).value, PrintString))
  {
    hide Trimmed, RepositoryPath, Strip, DistinctStrings;
    var patterns := PatternsIn(value).value;
    PatternsItemwise(value.items);
    forall i | 0 <= i < |value.items| ensures Map(patterns, PrintString)[i] == Trimmed(value.items[i]) {
      assert RepositoryIn(value.items[i], true) == Some(patterns[i]);
      TrimmedText(value.items[i]);
    }
    TrimmedItems(value.items, Map(patterns, PrintString));
  }

  lemma PrintedComponentIsTrimmed(item: Json)
    requires ParseComponent(item, true).Some?
    ensures PrintComponent(ParseComponent(item, true).value) == Trimmed(item)
  {
    hide Trimmed, RepositoryPath, Strip, IsProjectId, PatternsIn, IsComponentName, Map;
    ComponentKeysHave();
    var fields := item.fields;
    NamesAreTrimmed(fields["component"].s);
    PrintedPatternsAreTrimmed(fields["paths"]);
    TrimmedText(fields["component_id"]);
    TrimmedText(fields["case_file"]);
    TrimmedText(fields["case_generator_adapter_id"]);
    ComponentKeysAre();
    TrimmedFields(fields, PrintComponent(ParseComponent(item, true).value).fields);
  }

  lemma ComponentKeysAre()
    ensures ComponentKeys() == {"case_file", "component", "component_id", "paths", "case_generator_adapter_id"}
  {
  }

  lemma PrintedGithubIsTrimmed(value: Json, p: Project)
    requires GithubIn(value, true) == Some((p.retentionDays, p.components))
    ensures PrintGithub(p) == Trimmed(value)
  {
    hide Trimmed, ParseComponent, PrintComponent, ParsedComponents;
    GithubKeysHave();
    var fields := value.fields;
    var items, components := fields["components"].items, p.components;
    ComponentsItemwise(items);
    forall i | 0 <= i < |items| ensures Map(components, PrintComponent)[i] == Trimmed(items[i]) {
      PrintedComponentIsTrimmed(items[i]);
    }
    TrimmedItems(items, Map(components, PrintComponent));
    TrimmedText(fields["artifact_retention_days"]);
    TrimmedFields(fields, PrintGithub(p).fields);
  }

  lemma AdaptersFieldIsTrimmed(document: Json)
    requires ParseProject(document).Some? && VersionIn(document.fields) == Some(Current)
    ensures var k := "trusted_adapter_entry_points";
            && k in document.fields && k in PrintProject(ParseProject(document).value).fields
            && PrintProject(ParseProject(document).value).fields[k] == Trimmed(document.fields[k])
  {
    hide ParseProject, PrintProject, Trimmed, ParsedAdapters, PrintAdapter, Map, BasicsOf, VersionIn, LegacyKeys, ProjectKeys,
      GithubIn, PrintGithub, PrintedBasics;
    CurrentParts(document);
    PrintedKeys(ParseProject(document).value);
    PrintedAdaptersAreTrimmed(document.fields["trusted_adapter_entry_points"].items);
  }

  lemma GithubFieldIsTrimmed(document: Json)
    requires ParseProject(document).Some? && VersionIn(document.fields) == Some(Current)
    ensures var k := "github";
            && k in document.fields && k in PrintProject(ParseProject(document).value).fields
            && PrintProject(ParseProject(document).value).fields[k] == Trimmed(document.fields[k])
  {
    hide ParseProject, PrintProject, Trimmed, ParsedAdapters, PrintAdapter, Map, BasicsOf, VersionIn, LegacyKeys, ProjectKeys,
      GithubIn, PrintGithub, PrintedBasics;
    CurrentParts(document);
    PrintedKeys(ParseProject(document).value);
    PrintedGithubIsTrimmed(document.fields["github"], ParseProject(document).value);
  }

  lemma PrintedIsObject(p: Project)
    ensures PrintProject(p).JObject?
  {
  }

  /** A 3.0 document that is accepted prints as itself, but for whitespace around
      its texts: nothing in it is unknown, missing or left behind. */
  lemma PrintingUndoesParsing(document: Json)
    requires ParseProject(document).Some? && VersionIn(document.fields) == Some(Current)
    ensures PrintProject(ParseProject(document).value) == Trimmed(document)
  {
    hide ParseProject, PrintProject, Trimmed, VersionIn, LegacyKeys, ProjectKeys;
    CurrentParts(document);
    PrintedIsObject(ParseProject(document).value);
    var fields, p := document.fields, ParseProject(document).value;
    var printed := PrintProject(p).fields;
    PrintedTexts(p);
    ProjectKeysAre();
    AdaptersFieldIsTrimmed(document);
    GithubFieldIsTrimmed(document);
    forall k | k in fields ensures printed[k] == Trimmed(fields[k]) {
      if k in LegacyKeys() { TextsAreTrimmed(document, k); }
    }
    TrimmedFields(fields, printed);
  }

  lemma ProjectKeysAre()
    ensures ProjectKeys() == LegacyKeys() + {"github", "trusted_adapter_entry_points"}
  {
  }

  lemma CurrentParts(document: Json)
    requires ParseProject(document).Some? && VersionIn(document.fields) == Some(Current)
    ensures document.JObject?
    ensures var fields, p := document.fields, ParseProject(document).value;
            && fields.Keys == ProjectKeys() && LegacyKeys() <= ProjectKeys()
            && "trusted_adapter_entry_points" in fields && "github" in fields
            && fields["trusted_adapter_entry_points"].JArray?
            && ParsedAdapters(fields["trusted_adapter_entry_points"].items, true) == Some(p.adapters)
            && GithubIn(fields["github"], true) == Some((p.retentionDays, p.components))
  {
    hide GithubIn, ParsedAdapters, Resolved, ProjectId, RelativePath;
    ProjectKeysHave();
  }

  /** The texts of a printed configuration. */
  lemma PrintedTexts(p: Project)
    ensures var fields := PrintProject(p).fields;
            && fields.Keys == ProjectKeys() && LegacyKeys() <= ProjectKeys()
            && fields["project_id"] == JString(p.projectId) && fields["policy_file"] == JString(p.policyFile)
            && fields["adapter_directory"] == JString(p.adapterDirectory) && fields["artifact_directory"] == JString(p.artifactDirectory)
            && fields["raw_trace_storage"] == JString("disabled") && fields["schema_version"] == JString("3.0")
  {
    hide Map, PrintGithub;
    PrintedKeys(p);
    ProjectKeysHave();
  }

  lemma TextsAreTrimmed(document: Json, k: string)
    requires ParseProject(document).Some? && VersionIn(document.fields) == Some(Current) && k in LegacyKeys()
    ensures document.fields.Keys == PrintProject(ParseProject(document).value).fields.Keys && k in document.fields
    ensures PrintProject(ParseProject(document).value).fields[k] == Trimmed(document.fields[k])
  {
    hide PrintProject, Trimmed, GithubIn, ParsedAdapters, IsProjectId, Strip, Resolved, Contained, HasControl;
    ProjectKeysHave();
    PrintedTexts(ParseProject(document).value);
    TrimmedText(document.fields[k]);
    WordsAreTrimmed("disabled");
    WordsAreTrimmed("3.0");
  }

  lemma LegacyKeysHave()
    ensures "project_id" in LegacyKeys() && "policy_file" in LegacyKeys() && "adapter_directory" in LegacyKeys()
    ensures "artifact_directory" in LegacyKeys() && "raw_trace_storage" in LegacyKeys() && "schema_version" in LegacyKeys()
  {
  }
}
