/** Investigation fixtures of src/causure/fixtures.py: clustering of a manifest
    by trace, the strict fixture parser, and exactly when the one meets the other. */
module Fixture {
  import opened Vocabulary
  import opened Sequences
  import opened Sorting
  import opened Grouping
  import opened Tracing
  import opened Collector
  import opened Manifest

  datatype NamedCount = NamedCount(name: string, count: int)

  datatype StatusCount = StatusCount(code: int, count: int)

  datatype FixtureSource = FixtureSource(
    manifestSha: string, traceArtifactId: string, traceSourceSha: string, traceCount: int, spanCount: int)

  datatype Cluster = Cluster(
    clusterId: string, traceRef: string, traceHash: string, spanRefs: seq<string>,
    spanCount: int, rootSpanCount: int, errorSpanCount: int,
    kindCounts: seq<NamedCount>, statusCounts: seq<StatusCount>, models: seq<string>, providers: seq<string>,
    earliest: Option<int>, latest: Option<int>, duration: Option<int>)

  datatype InvestigationFixture = InvestigationFixture(fixtureId: string, source: FixtureSource, clusters: seq<Cluster>)

  const MODEL_KEYS: seq<string> := ["embedding.model_name", "gen_ai.request.model", "gen_ai.response.model", "llm.model_name"]

  const PROVIDER_KEYS: seq<string> := ["gen_ai.provider.name", "llm.provider", "llm.system"]

  const MAX_CLUSTERS := 10_000

  const MAX_IDENTIFIERS := 10_000

  // ---------------------------------------------------------------- clustering

  function TraceRef(sourceSha: string, traceHash: string): string {
    "trace-sha256://" + sourceSha + "/traces/" + traceHash
  }

  /** The span's kind, or "" when it has none. */
  function KindOf(span: CollectedSpan): string {
    if SPAN_KIND_KEY in span.attributes && span.attributes[SPAN_KIND_KEY].Text? then span.attributes[SPAN_KIND_KEY].text
    else ""
  }

  /** The span's status code, or -1 when it has none. */
  function StatusOf(span: CollectedSpan): int {
    if span.status.Some? then span.status.value else -1
  }

  function IsRoot(span: CollectedSpan): bool { span.parentHash == None }

  /** The texts a span carries under these keys. */
  function IdentifiersOf(keys: seq<string>): CollectedSpan -> seq<string> {
    (span: CollectedSpan) => Concat(Map(keys, TextUnder(span)))
  }

  function TextUnder(span: CollectedSpan): string -> seq<string> {
    key => if key in span.attributes && span.attributes[key].Text? then [span.attributes[key].text] else []
  }

  /** set(...) of the identifiers of a group, sorted. */
  function Identifiers(keys: seq<string>, spans: seq<CollectedSpan>): seq<string> {
    SortedSet(Concat(Map(spans, IdentifiersOf(keys))))
  }

  function EarliestOf(spans: seq<CollectedSpan>): Option<int> {
    if spans == [] then None else
    var earlier := EarliestOf(spans[..|spans| - 1]);
    var start := spans[|spans| - 1].start;
    if start.None? then earlier
    else if earlier.None? || start.value < earlier.value then start else earlier
  }

  function LatestOf(spans: seq<CollectedSpan>): Option<int> {
    if spans == [] then None else
    var later := LatestOf(spans[..|spans| - 1]);
    var end := spans[|spans| - 1].end;
    if end.None? then later
    else if later.None? || end.value > later.value then end else later
  }

  function Window(earliest: Option<int>, latest: Option<int>): Option<int> {
    if earliest.Some? && latest.Some? && latest.value >= earliest.value then Some(latest.value - earliest.value) else None
  }

  function KindNames(spans: seq<CollectedSpan>): seq<string> {
    SortedSet(Filter(Map(spans, KindOf), (kind: string) => kind != ""))
  }

  function KindCount(spans: seq<CollectedSpan>): string -> NamedCount {
    name => NamedCount(name, Count(spans, Having(KindOf, name)))
  }

  function StatusCounted(spans: seq<CollectedSpan>): int -> StatusCount {
    code => StatusCount(code, Count(spans, Having(StatusOf, code)))
  }

  /** The codes that occur; a parsed manifest has no others than 0, 1 and 2. */
  function StatusCodes(spans: seq<CollectedSpan>): seq<int> {
    Filter([0, 1, 2], code => Count(spans, Having(StatusOf, code)) > 0)
  }

  /** The cluster of one trace. */
  function ClusterOf(sourceSha: string, traceHash: string, spans: seq<CollectedSpan>): Cluster {
    Cluster(
      "trace-" + traceHash, TraceRef(sourceSha, traceHash), traceHash, Sort(Map(spans, ReferenceOf), StringLe),
      |spans|, Count(spans, IsRoot), Count(spans, Having(StatusOf, 2)),
      Map(KindNames(spans), KindCount(spans)), Map(StatusCodes(spans), StatusCounted(spans)),
      Identifiers(MODEL_KEYS, spans), Identifiers(PROVIDER_KEYS, spans),
      EarliestOf(spans), LatestOf(spans), Window(EarliestOf(spans), LatestOf(spans)))
  }

  function TraceHashes(spans: seq<CollectedSpan>): seq<string> {
    SortedSet(Map(spans, TraceHashOf))
  }

  function ClusterIn(m: TraceManifest): string -> Cluster {
    traceHash => ClusterOf(m.sourceSha, traceHash, GroupOf(TraceHashOf, m.spans)(traceHash))
  }

  datatype GenerationError = BadFixtureId | BadClusterLimit | BadManifest(fault: Fault) | TooManyClusters

  function Generated(m: TraceManifest, manifestSha: string, fixtureId: string, maxClusters: int):
    Result<InvestigationFixture, GenerationError>
  {
    if !IsSafeId(fixtureId) then Err(BadFixtureId)
    else if !(1 <= maxClusters <= MAX_CLUSTERS) then Err(BadClusterLimit)
    else match ParseManifest(m)
    case Err(fault) => Err(BadManifest(fault))
    case Ok(manifest) =>
      var hashes := TraceHashes(manifest.spans);
      if |hashes| > maxClusters then Err(TooManyClusters)
      else Ok(InvestigationFixture(
        fixtureId,
        FixtureSource(manifestSha, manifest.artifactId, manifest.sourceSha, manifest.traceCount, manifest.spanCount),
        Map(hashes, ClusterIn(manifest))))
  }

  /** The grouping loop: a dictionary of lists filled in one pass. */
  method Grouped(spans: seq<CollectedSpan>) returns (grouped: map<string, seq<CollectedSpan>>)
    ensures grouped.Keys == Elements(Map(spans, TraceHashOf))
    ensures forall h :: h in grouped ==> grouped[h] == GroupOf(TraceHashOf, spans)(h)
  {
    grouped := map[];
    for i := 0 to |spans|
      invariant grouped.Keys == Elements(Map(spans[..i], TraceHashOf))
      invariant forall h :: h in grouped ==> grouped[h] == GroupOf(TraceHashOf, spans[..i])(h)
    {
      var span := spans[i];
      assert spans[..i + 1] == spans[..i] + [span] && spans[..i + 1][..i] == spans[..i];
      assert Map(spans[..i + 1], TraceHashOf) == Map(spans[..i], TraceHashOf) + [span.traceHash];
      if span.traceHash !in grouped {
        NoGroup(TraceHashOf, spans[..i], span.traceHash);
      }
      var group := if span.traceHash in grouped then grouped[span.traceHash] else [];
      grouped := grouped[span.traceHash := group + [span]];
    }
    assert spans[..|spans|] == spans;
  }

  lemma {:induction false} NoGroup<T, K>(f: T -> K, s: seq<T>, k: K)
    requires k !in Map(s, f)
    ensures GroupOf(f, s)(k) == []
  {
    if s != [] {
      var front := s[..|s| - 1];
      assert Map(front, f) == Map(s, f)[..|s| - 1];
      assert Map(s, f)[|s| - 1] == f(s[|s| - 1]);
      NoGroup(f, front, k);
    }
  }

  method Generate(m: TraceManifest, manifestSha: string, fixtureId: string, maxClusters: int)
    returns (r: Result<InvestigationFixture, GenerationError>)
    ensures r == Generated(m, manifestSha, fixtureId, maxClusters)
  {
    hide ParseManifest, ClusterOf, IsSafeId;
    if !IsSafeId(fixtureId) { return Err(BadFixtureId); }
    if !(1 <= maxClusters <= MAX_CLUSTERS) { return Err(BadClusterLimit); }
    var parsed := ParseManifest(m);
    if parsed.Err? { return Err(BadManifest(parsed.error)); }
    var manifest := parsed.value;
    var grouped := Grouped(manifest.spans);
    var hashes := TraceHashes(manifest.spans);
    SortedSetIncreasing(Map(manifest.spans, TraceHashOf));
    SameCardinality(hashes, grouped.Keys);
    if |grouped| > maxClusters { return Err(TooManyClusters); }
    var clusters := seq(|hashes|, i requires 0 <= i < |hashes| && hashes[i] in grouped =>
                          ClusterOf(manifest.sourceSha, hashes[i], grouped[hashes[i]]));
    assert clusters == Map(hashes, ClusterIn(manifest));
    return Ok(InvestigationFixture(
      fixtureId,
      FixtureSource(manifestSha, manifest.artifactId, manifest.sourceSha, manifest.traceCount, manifest.spanCount),
      clusters));
  }

  lemma SameCardinality(s: seq<string>, elements: set<string>)
    requires Increasing(s) && forall x :: x in s <==> x in elements
    ensures |s| == |elements|
  {
    DistinctCardinality(s);
    assert Elements(s) == elements;
  }

  /** The parts of a cluster that name its trace and its spans. */
  lemma ClusterFields(m: TraceManifest, traceHash: string)
    ensures var c, group := ClusterIn(m)(traceHash), GroupOf(TraceHashOf, m.spans)(traceHash);
            && c.clusterId == "trace-" + traceHash && c.traceHash == traceHash
            && c.spanRefs == Sort(Map(group, ReferenceOf), StringLe) && c.spanCount == |group|
  {
    hide Sort, Map, Filter, Count, Identifiers, KindNames, StatusCodes, EarliestOf, LatestOf;
  }

  // ---------------------------------------------------------------- the strict parser

  datatype FixtureFault =
    | BadId | BadDigest | ClusterIdNotDerived | TraceRefNotBound | BadReferences | BadCount | BadKindCounts
    | BadStatusCounts | ErrorCountDiffers | BadTimestamp | BadWindow | BadIdentifiers | ClustersNotSorted
    | TraceTotalDiffers | SpanTotalDiffers

  function CountOfNamed(item: NamedCount): int { item.count }

  function NameOf(item: NamedCount): string { item.name }

  function CountOfStatus(item: StatusCount): int { item.count }

  predicate NamedCountsAccepted(counts: seq<NamedCount>, spanCount: int) {
    && |counts| <= |SPAN_KINDS|
    && (forall i :: 0 <= i < |counts| ==> IsSpanKind(counts[i].name) && 1 <= counts[i].count <= spanCount)
    && Map(counts, NameOf) == SortedSet(Map(counts, NameOf))
    && Sum(Map(counts, CountOfNamed)) <= spanCount
  }

  predicate StatusCountsAccepted(counts: seq<StatusCount>, spanCount: int) {
    && |counts| <= 3
    && (forall i :: 0 <= i < |counts| ==> 0 <= counts[i].code <= 2 && 1 <= counts[i].count <= spanCount)
    && (forall i, j :: 0 <= i < j < |counts| ==> counts[i].code < counts[j].code)
    && Sum(Map(counts, CountOfStatus)) <= spanCount
  }

  /** The loop of _parse_named_counts: entries are appended one by one, then the
      whole list is checked. */
  method ParseNamedCounts(value: seq<NamedCount>, spanCount: int) returns (r: Result<seq<NamedCount>, FixtureFault>)
    ensures r == if NamedCountsAccepted(value, spanCount) then Ok(value) else Err(BadKindCounts)
  {
    hide IsSpanKind, SortedSet;
    if |value| > |SPAN_KINDS| { return Err(BadKindCounts); }
    var parsed: seq<NamedCount> := [];
    for i := 0 to |value|
      invariant parsed == value[..i]
      invariant forall j :: 0 <= j < i ==> IsSpanKind(value[j].name) && 1 <= value[j].count <= spanCount
    {
      if !IsSpanKind(value[i].name) || !(1 <= value[i].count <= spanCount) { return Err(BadKindCounts); }
      parsed := parsed + [value[i]];
    }
    assert parsed == value;
    if Map(parsed, NameOf) != SortedSet(Map(parsed, NameOf)) { return Err(BadKindCounts); }
    if Sum(Map(parsed, CountOfNamed)) > spanCount { return Err(BadKindCounts); }
    return Ok(parsed);
  }

  /** next((count for code 2), 0). */
  function StatusErrors(counts: seq<StatusCount>): int {
    if counts == [] then 0
    else if counts[0].code == 2 then counts[0].count
    else StatusErrors(counts[1..])
  }

  /** The pattern of a span reference, bound to this source. */
  predicate IsSpanRef(sourceSha: string, reference: string) {
    var prefix := "trace-sha256://" + sourceSha + "/spans/";
    prefix <= reference && IsSha256(reference[|prefix|..])
  }

  predicate ReferencesAccepted(sourceSha: string, references: seq<string>, spanCount: int) {
    && 1 <= |references| == spanCount
    && (forall i :: 0 <= i < |references| ==> IsSpanRef(sourceSha, references[i]))
    && references == SortedSet(references)
  }

  predicate IdentifiersAccepted(identifiers: seq<string>) {
    && |identifiers| <= MAX_IDENTIFIERS
    && (forall i :: 0 <= i < |identifiers| ==> IsSafeText(identifiers[i]))
    && identifiers == SortedSet(identifiers)
  }

  function ParseCluster(c: Cluster, source: FixtureSource): Result<Cluster, FixtureFault> {
    if !IsSha256(c.traceHash) then Err(BadDigest)
    else if c.clusterId != "trace-" + c.traceHash then Err(ClusterIdNotDerived)
    else if c.traceRef != TraceRef(source.traceSourceSha, c.traceHash) then Err(TraceRefNotBound)
    else if c.spanCount < 1 || !ReferencesAccepted(source.traceSourceSha, c.spanRefs, c.spanCount) then Err(BadReferences)
    else if !(0 <= c.rootSpanCount <= c.spanCount) || !(0 <= c.errorSpanCount <= c.spanCount) then Err(BadCount)
    else if !NamedCountsAccepted(c.kindCounts, c.spanCount) then Err(BadKindCounts)
    else if !StatusCountsAccepted(c.statusCounts, c.spanCount) then Err(BadStatusCounts)
    else if StatusErrors(c.statusCounts) != c.errorSpanCount then Err(ErrorCountDiffers)
    else if !ValidTime(c.earliest) || !ValidTime(c.latest) || !ValidTime(c.duration) then Err(BadTimestamp)
    else if c.duration != Window(c.earliest, c.latest) then Err(BadWindow)
    else if !IdentifiersAccepted(c.models) || !IdentifiersAccepted(c.providers) then Err(BadIdentifiers)
    else Ok(c)
  }

  function ParseClusters(clusters: seq<Cluster>, source: FixtureSource): Result<seq<Cluster>, FixtureFault> {
    if clusters == [] then Ok([]) else
    match ParseClusters(clusters[..|clusters| - 1], source)
    case Err(e) => Err(e)
    case Ok(parsed) =>
      match ParseCluster(clusters[|clusters| - 1], source)
      case Err(e) => Err(e)
      case Ok(c) => Ok(parsed + [c])
  }

  function ClusterIdOf(c: Cluster): string { c.clusterId }

  function SpanCountOf(c: Cluster): int { c.spanCount }

  function ParseFixture(f: InvestigationFixture): Result<InvestigationFixture, FixtureFault> {
    if !IsSha256(f.source.manifestSha) || !IsSafeId(f.source.traceArtifactId) || !IsSha256(f.source.traceSourceSha)
    then Err(BadDigest)
    else if f.source.traceCount < 1 || f.source.spanCount < 1 || !(1 <= |f.clusters| <= MAX_CLUSTERS) then Err(BadCount)
    else match ParseClusters(f.clusters, f.source)
    case Err(e) => Err(e)
    case Ok(clusters) =>
      if Map(clusters, ClusterIdOf) != SortedSet(Map(clusters, ClusterIdOf)) then Err(ClustersNotSorted)
      else if |clusters| != f.source.traceCount then Err(TraceTotalDiffers)
      else if Sum(Map(clusters, SpanCountOf)) != f.source.spanCount then Err(SpanTotalDiffers)
      else if !IsSafeId(f.fixtureId) then Err(BadId)
      else Ok(f.(clusters := clusters))
  }

  // ---------------------------------------------------------------- a generated cluster is accepted

  lemma IncreasingIsSortedSet(s: seq<string>)
    requires Increasing(s)
    ensures s == SortedSet(s)
  {
    SortedSetIncreasing(s);
    IncreasingUnique(s, SortedSet(s));
  }

  lemma SortedSetsAreFixed(s: seq<string>)
    ensures SortedSet(SortedSet(s)) == SortedSet(s)
  {
    SortedSetIncreasing(s);
    IncreasingIsSortedSet(SortedSet(s));
  }

  lemma ReferencesFit(sourceSha: string, spans: seq<CollectedSpan>)
    requires spans != [] && Distinct(Map(spans, ReferenceOf))
    requires forall i :: 0 <= i < |spans| ==> ParseSpan(spans[i], sourceSha).Ok?
    ensures ReferencesAccepted(sourceSha, Sort(Map(spans, ReferenceOf), StringLe), |spans|)
  {
    hide ParseSpan, IsSpanRef, Sort, SortedSet, Increasing, Distinct;
    var references := Map(spans, ReferenceOf);
    var sorted := Sort(references, StringLe);
    SortIncreasing(references);
    IncreasingIsSortedSet(sorted);
    SameElements(references, sorted);
    forall i | 0 <= i < |sorted| ensures IsSpanRef(sourceSha, sorted[i]) {
      assert sorted[i] in references;
      var j :| 0 <= j < |references| && references[j] == sorted[i];
      ReferenceFits(spans[j], sourceSha);
    }
  }

  lemma ReferenceFits(span: CollectedSpan, sourceSha: string)
    requires ParseSpan(span, sourceSha).Ok?
    ensures IsSpanRef(sourceSha, span.evidenceRef)
  {
    hide AttributesAllowed, IsSha256;
    var prefix := "trace-sha256://" + sourceSha + "/spans/";
    assert span.evidenceRef == prefix + span.spanHash;
    assert span.evidenceRef[|prefix|..] == span.spanHash;
  }

  lemma {:induction false} CountPositive<T>(s: seq<T>, p: T -> bool, i: nat)
    requires i < |s| && p(s[i])
    ensures Count(s, p) >= 1
  {
    if i < |s| - 1 {
      CountPositive(s[..|s| - 1], p, i);
    }
  }

  lemma KindFits(span: CollectedSpan, sourceSha: string)
    requires ParseSpan(span, sourceSha).Ok? && KindOf(span) != ""
    ensures IsSpanKind(KindOf(span))
  {
    hide IsSpanKind, IsSha256, IsTextKey, IsNumericKey;
    assert AllowedValue(SPAN_KIND_KEY, span.attributes[SPAN_KIND_KEY]);
  }

  /** A list of distinct span kinds is no longer than the list of all kinds. */
  lemma FewKinds(names: seq<string>)
    requires Distinct(names) && forall i :: 0 <= i < |names| ==> IsSpanKind(names[i])
    ensures |names| <= |SPAN_KINDS|
  {
    DistinctCardinality(names);
    assert Elements(names) <= Elements(SPAN_KINDS);
    Subset(Elements(names), Elements(SPAN_KINDS));
    AtMost(SPAN_KINDS);
  }

  lemma Subset<T>(a: set<T>, b: set<T>)
    requires a <= b
    ensures |a| <= |b|
  {
    assert b == a + (b - a);
  }

  lemma {:induction false} AtMost<T>(s: seq<T>)
    ensures |Elements(s)| <= |s|
  {
    if s != [] {
      var n := |s| - 1;
      assert s == s[..n] + [s[n]];
      ElementsSnoc(s[..n], s[n]);
      AtMost(s[..n]);
    }
  }

  lemma KindNamesFit(sourceSha: string, spans: seq<CollectedSpan>)
    requires forall i :: 0 <= i < |spans| ==> ParseSpan(spans[i], sourceSha).Ok?
    ensures Increasing(KindNames(spans))
    ensures forall i :: 0 <= i < |KindNames(spans)| ==>
              && IsSpanKind(KindNames(spans)[i])
              && 1 <= Count(spans, Having(KindOf, KindNames(spans)[i])) <= |spans|
  {
    hide IsSpanKind, ParseSpan, KindOf;
    var kinds := Map(spans, KindOf);
    var named := Filter(kinds, (kind: string) => kind != "");
    SortedSetIncreasing(named);
    FilterMembers(kinds, (kind: string) => kind != "");
    var names := KindNames(spans);
    forall i | 0 <= i < |names| ensures IsSpanKind(names[i]) && 1 <= Count(spans, Having(KindOf, names[i])) {
      assert names[i] in names && names[i] in named && names[i] in kinds;
      var j :| 0 <= j < |kinds| && kinds[j] == names[i];
      KindFits(spans[j], sourceSha);
      CountPositive(spans, Having(KindOf, names[i]), j);
    }
  }

  lemma KindCountsFit(sourceSha: string, spans: seq<CollectedSpan>)
    requires forall i :: 0 <= i < |spans| ==> ParseSpan(spans[i], sourceSha).Ok?
    ensures NamedCountsAccepted(Map(KindNames(spans), KindCount(spans)), |spans|)
  {
    hide IsSpanKind, ParseSpan, KindOf, KindNames, Sum, Count, SortedSet, Increasing, Distinct;
    var names := KindNames(spans);
    KindNamesFit(sourceSha, spans);
    IncreasingDistinct(names);
    FewKinds(names);
    KindCountsShow(spans, names);
    IncreasingIsSortedSet(names);
    SizesAddUp(names, KindOf, spans);
  }

  lemma KindCountsShow(spans: seq<CollectedSpan>, names: seq<string>)
    ensures Map(Map(names, KindCount(spans)), NameOf) == names
    ensures Map(Map(names, KindCount(spans)), CountOfNamed) == Map(names, CountOf(KindOf, spans))
  {
    hide Count, KindOf;
  }

  lemma IncreasingDistinct(s: seq<string>)
    requires Increasing(s)
    ensures Distinct(s)
  {
  }

  function Codes(p: int -> bool): seq<int> {
    (if p(0) then [0] else []) + (if p(1) then [1] else []) + (if p(2) then [2] else [])
  }

  lemma ThreeCodes(p: int -> bool)
    ensures Filter([0, 1, 2], p) == Codes(p)
  {
    assert [0, 1, 2][..2] == [0, 1] && [0, 1][..1] == [0] && [0][..0] == [];
    assert Filter([0], p) == if p(0) then [0] else [];
    assert Filter([0, 1], p) == Filter([0], p) + if p(1) then [1] else [];
    assert Filter([0, 1, 2], p) == Filter([0, 1], p) + if p(2) then [2] else [];
  }

  function Occurs(spans: seq<CollectedSpan>): int -> bool {
    code => Count(spans, Having(StatusOf, code)) > 0
  }

  lemma StatusCodesAre(spans: seq<CollectedSpan>)
    ensures StatusCodes(spans) == Codes(Occurs(spans))
  {
    hide Count;
    FilterAgrees([0, 1, 2], code => Count(spans, Having(StatusOf, code)) > 0, Occurs(spans));
    ThreeCodes(Occurs(spans));
  }

  /** The entry of code 2 is found behind entries of other codes. */
  lemma {:induction false} ErrorEntry(counts: seq<StatusCount>, i: nat)
    requires i < |counts| && counts[i].code == 2 && forall j :: 0 <= j < i ==> counts[j].code != 2
    ensures StatusErrors(counts) == counts[i].count
  {
    if i > 0 {
      ErrorEntry(counts[1..], i - 1);
    }
  }

  lemma {:induction false} NoErrorEntry(counts: seq<StatusCount>)
    requires forall j :: 0 <= j < |counts| ==> counts[j].code != 2
    ensures StatusErrors(counts) == 0
  {
    if counts != [] {
      NoErrorEntry(counts[1..]);
    }
  }

  lemma CodesAreSorted(p: int -> bool)
    ensures |Codes(p)| <= 3 && forall i :: 0 <= i < |Codes(p)| ==> 0 <= Codes(p)[i] <= 2 && p(Codes(p)[i])
    ensures forall i, j :: 0 <= i < j < |Codes(p)| ==> Codes(p)[i] < Codes(p)[j]
    ensures if p(2) then Codes(p) != [] && Codes(p)[|Codes(p)| - 1] == 2
            else forall i :: 0 <= i < |Codes(p)| ==> Codes(p)[i] != 2
  {
  }

  lemma StatusCountsFit(spans: seq<CollectedSpan>)
    ensures StatusCountsAccepted(Map(StatusCodes(spans), StatusCounted(spans)), |spans|)
  {
    hide Count, Sum, StatusOf, StatusErrors, Codes, StatusCodes;
    var codes := StatusCodes(spans);
    StatusCodesAre(spans);
    CodesAreSorted(Occurs(spans));
    StatusCountsShow(spans, codes);
    SizesAddUp(codes, StatusOf, spans);
  }

  lemma StatusCountsShow(spans: seq<CollectedSpan>, codes: seq<int>)
    ensures Map(Map(codes, StatusCounted(spans)), CountOfStatus) == Map(codes, CountOf(StatusOf, spans))
  {
    hide Count, StatusOf;
  }

  lemma ErrorsFit(spans: seq<CollectedSpan>)
    ensures StatusErrors(Map(StatusCodes(spans), StatusCounted(spans))) == Count(spans, Having(StatusOf, 2))
  {
    hide Count, StatusOf, StatusErrors, Codes, StatusCodes;
    var counts := Map(StatusCodes(spans), StatusCounted(spans));
    StatusCodesAre(spans);
    CodesAreSorted(Occurs(spans));
    if Occurs(spans)(2) {
      ErrorEntry(counts, |counts| - 1);
    } else {
      NoErrorEntry(counts);
    }
  }

  lemma {:induction false} TimesOfGroup(sourceSha: string, spans: seq<CollectedSpan>)
    requires forall i :: 0 <= i < |spans| ==> ValidTime(spans[i].start) && ValidTime(spans[i].end)
    ensures ValidTime(EarliestOf(spans)) && ValidTime(LatestOf(spans))
  {
    if spans != [] {
      hide IsUint64;
      TimesOfGroup(sourceSha, spans[..|spans| - 1]);
    }
  }

  lemma SpanTimes(span: CollectedSpan, sourceSha: string)
    requires ParseSpan(span, sourceSha).Ok?
    ensures ValidTime(span.start) && ValidTime(span.end)
  {
    hide IsUint64, IsSha256, AttributesAllowed;
  }

  lemma {:induction false} ConcatMembers<T>(parts: seq<seq<T>>, x: T)
    requires x in Concat(parts)
    ensures exists i :: 0 <= i < |parts| && x in parts[i]
  {
    var n := |parts| - 1;
    if x !in parts[n] {
      ConcatMembers(parts[..n], x);
      var i :| 0 <= i < n && x in parts[..n][i];
      assert x in parts[i];
    }
  }

  predicate PlainTextKeys(keys: seq<string>) {
    forall i :: 0 <= i < |keys| ==> IsTextKey(keys[i]) && keys[i] != SPAN_KIND_KEY
  }

  lemma IdentifierKeys()
    ensures PlainTextKeys(MODEL_KEYS) && PlainTextKeys(PROVIDER_KEYS)
  {
  }

  lemma TextFits(span: CollectedSpan, sourceSha: string, key: string, text: string)
    requires ParseSpan(span, sourceSha).Ok? && IsTextKey(key) && key != SPAN_KIND_KEY && text in TextUnder(span)(key)
    ensures IsSafeText(text)
  {
    hide IsTextKey, IsNumericKey, IsSpanKind, IsSha256, IsSafeText;
    assert AllowedValue(key, span.attributes[key]);
  }

  lemma IdentifiersFit(sourceSha: string, keys: seq<string>, spans: seq<CollectedSpan>)
    requires PlainTextKeys(keys) && forall i :: 0 <= i < |spans| ==> ParseSpan(spans[i], sourceSha).Ok?
    ensures IdentifiersAccepted(Identifiers(keys, spans)) <==> |Identifiers(keys, spans)| <= MAX_IDENTIFIERS
  {
    hide ParseSpan, IsSafeText, IsTextKey, TextUnder, SortedSet, Increasing;
    var all := Concat(Map(spans, IdentifiersOf(keys)));
    var identifiers := Identifiers(keys, spans);
    SortedSetIncreasing(all);
    SortedSetsAreFixed(all);
    forall i | 0 <= i < |identifiers| ensures IsSafeText(identifiers[i]) {
      assert identifiers[i] in identifiers;
      ConcatMembers(Map(spans, IdentifiersOf(keys)), identifiers[i]);
      var j :| 0 <= j < |spans| && identifiers[i] in IdentifiersOf(keys)(spans[j]);
      ConcatMembers(Map(keys, TextUnder(spans[j])), identifiers[i]);
      var k :| 0 <= k < |keys| && identifiers[i] in TextUnder(spans[j])(keys[k]);
      TextFits(spans[j], sourceSha, keys[k], identifiers[i]);
    }
  }

  predicate FewIdentifiers(c: Cluster) {
    |c.models| <= MAX_IDENTIFIERS && |c.providers| <= MAX_IDENTIFIERS
  }

  /** A generated cluster meets every check of the parser except, possibly, the
      limit on identifiers. */
  lemma ClusterParses(source: FixtureSource, traceHash: string, spans: seq<CollectedSpan>)
    requires IsSha256(traceHash) && spans != [] && Distinct(Map(spans, ReferenceOf))
    requires forall i :: 0 <= i < |spans| ==> ParseSpan(spans[i], source.traceSourceSha).Ok?
    ensures var c := ClusterOf(source.traceSourceSha, traceHash, spans);
            ParseCluster(c, source) == if FewIdentifiers(c) then Ok(c) else Err(BadIdentifiers)
  {
    hide ParseSpan, IsSha256, Sort, Count, ReferencesAccepted, NamedCountsAccepted, StatusCountsAccepted,
      IdentifiersAccepted, Identifiers, KindNames, StatusCodes, StatusErrors, EarliestOf, LatestOf, Distinct, PlainTextKeys;
    ReferencesFit(source.traceSourceSha, spans);
    KindCountsFit(source.traceSourceSha, spans);
    StatusCountsFit(spans);
    ErrorsFit(spans);
    forall i | 0 <= i < |spans| ensures ValidTime(spans[i].start) && ValidTime(spans[i].end) {
      SpanTimes(spans[i], source.traceSourceSha);
    }
    TimesOfGroup(source.traceSourceSha, spans);
    IdentifierKeys();
    IdentifiersFit(source.traceSourceSha, MODEL_KEYS, spans);
    IdentifiersFit(source.traceSourceSha, PROVIDER_KEYS, spans);
  }

  // ---------------------------------------------------------------- a generated fixture is accepted

  lemma {:induction false} CardinalityDistinct<T>(s: seq<T>)
    requires |Elements(s)| == |s|
    ensures Distinct(s)
  {
    if s != [] {
      var n := |s| - 1;
      assert s == s[..n] + [s[n]];
      ElementsSnoc(s[..n], s[n]);
      AtMost(s[..n]);
      CardinalityDistinct(s[..n]);
    }
  }

  lemma {:induction false} FilterDistinct<T, U>(s: seq<T>, f: T -> U, p: T -> bool)
    requires Distinct(Map(s, f))
    ensures Distinct(Map(Filter(s, p), f))
  {
    if s != [] {
      var n := |s| - 1;
      var front, kept := s[..n], Filter(s[..n], p);
      assert Map(front, f) == Map(s, f)[..n];
      FilterDistinct(front, f, p);
      forall i | 0 <= i < |kept| ensures f(kept[i]) != f(s[n]) {
        var j := FilterSource(front, p, i);
        assert Map(s, f)[j] != Map(s, f)[n];
      }
    }
  }

  /** What the parser has checked of every manifest that fixtures start from. */
  ghost predicate Checked(m: TraceManifest) {
    && IsSafeId(m.artifactId) && IsSha256(m.sourceSha)
    && m.traceCount >= 1 && m.spanCount >= 1 && m.spanCount == |m.spans|
    && m.traceCount == |Elements(Map(m.spans, TraceHashOf))|
    && Distinct(Map(m.spans, ReferenceOf))
    && forall i :: 0 <= i < |m.spans| ==> ParseSpan(m.spans[i], m.sourceSha).Ok?
  }

  lemma ParsedIsChecked(m: TraceManifest)
    requires ParseManifest(m).Ok?
    ensures ParseManifest(m).value == m && Checked(m)
  {
    hide ParseSpan, ParseSpans, Elements, Distinct, Sum, IsSafeId, IsSha256;
    SpansParse(m.spans, m.sourceSha);
    CardinalityDistinct(Map(m.spans, ReferenceOf));
  }

  lemma GroupIsGood(m: TraceManifest, traceHash: string)
    requires Checked(m) && traceHash in TraceHashes(m.spans)
    ensures var group := GroupOf(TraceHashOf, m.spans)(traceHash);
            && group != [] && IsSha256(traceHash) && Distinct(Map(group, ReferenceOf))
            && forall i :: 0 <= i < |group| ==> ParseSpan(group[i], m.sourceSha).Ok?
  {
    hide ParseSpan, IsSha256, SortedSet, Distinct, Increasing, Filter, IsSafeId;
    var group := GroupOf(TraceHashOf, m.spans)(traceHash);
    SortedSetIncreasing(Map(m.spans, TraceHashOf));
    var j :| 0 <= j < |m.spans| && Map(m.spans, TraceHashOf)[j] == traceHash;
    FilterMembers(m.spans, Having(TraceHashOf, traceHash));
    assert m.spans[j] in group;
    FilterDistinct(m.spans, ReferenceOf, Having(TraceHashOf, traceHash));
    TraceHashFits(m.spans[j], m.sourceSha);
    forall i | 0 <= i < |group| ensures ParseSpan(group[i], m.sourceSha).Ok? {
      var k := FilterSource(m.spans, Having(TraceHashOf, traceHash), i);
    }
  }

  lemma TraceHashFits(span: CollectedSpan, sourceSha: string)
    requires ParseSpan(span, sourceSha).Ok?
    ensures IsSha256(span.traceHash)
  {
    hide IsSha256, AttributesAllowed;
  }

  lemma {:induction false} ClustersParse(clusters: seq<Cluster>, source: FixtureSource)
    requires forall i :: 0 <= i < |clusters| ==>
               ParseCluster(clusters[i], source) == if FewIdentifiers(clusters[i]) then Ok(clusters[i]) else Err(BadIdentifiers)
    ensures ParseClusters(clusters, source).Ok? <==> forall i :: 0 <= i < |clusters| ==> FewIdentifiers(clusters[i])
    ensures ParseClusters(clusters, source).Ok? ==> ParseClusters(clusters, source).value == clusters
  {
    hide ParseCluster, FewIdentifiers;
    if clusters != [] {
      var n := |clusters| - 1;
      ClustersParse(clusters[..n], source);
      assert clusters == clusters[..n] + [clusters[n]];
      if forall i :: 0 <= i < n ==> FewIdentifiers(clusters[..n][i]) {
        assert forall i :: 0 <= i < n ==> clusters[i] == clusters[..n][i];
      }
    }
  }

  lemma ClusterIdsIncrease(m: TraceManifest)
    ensures var ids := Map(Map(TraceHashes(m.spans), ClusterIn(m)), ClusterIdOf); ids == SortedSet(ids)
  {
    hide SortedSet, Increasing, ClusterIn;
    var hashes := TraceHashes(m.spans);
    var ids := Map(Map(hashes, ClusterIn(m)), ClusterIdOf);
    SortedSetIncreasing(Map(m.spans, TraceHashOf));
    forall i | 0 <= i < |hashes| ensures ids[i] == "trace-" + hashes[i] {
      ClusterFields(m, hashes[i]);
    }
    PrefixedIncrease(hashes, ids);
    IncreasingIsSortedSet(ids);
  }

  lemma PrefixedIncrease(hashes: seq<string>, ids: seq<string>)
    requires Increasing(hashes) && |ids| == |hashes| && forall i :: 0 <= i < |hashes| ==> ids[i] == "trace-" + hashes[i]
    ensures Increasing(ids)
  {
    forall i, j | 0 <= i < j < |ids| ensures StringLess(ids[i], ids[j]) {
      assert StringLess(hashes[i], hashes[j]);
      StringPrefix("trace-", hashes[i], hashes[j]);
      assert ids[i][6..] == hashes[i] && ids[j][6..] == hashes[j];
    }
  }

  lemma CountsAddUp(m: TraceManifest)
    ensures Sum(Map(Map(TraceHashes(m.spans), ClusterIn(m)), SpanCountOf)) == |m.spans|
    ensures |TraceHashes(m.spans)| == |Elements(Map(m.spans, TraceHashOf))|
  {
    hide SortedSet, Increasing, Filter, Count, Sum;
    var hashes, all := TraceHashes(m.spans), Map(m.spans, TraceHashOf);
    SortedSetIncreasing(all);
    IncreasingDistinct(hashes);
    SizesAddUp(hashes, TraceHashOf, m.spans);
    forall i | 0 <= i < |m.spans| ensures TraceHashOf(m.spans[i]) in hashes {
      assert all[i] in all;
    }
    ClusterSizes(m, hashes);
    SameCardinality(hashes, Elements(all));
  }

  lemma ClusterSizes(m: TraceManifest, hashes: seq<string>)
    ensures Map(Map(hashes, ClusterIn(m)), SpanCountOf) == Map(hashes, CountOf(TraceHashOf, m.spans))
  {
    hide Filter, Count, ClusterOf;
    forall i | 0 <= i < |hashes|
      ensures Map(Map(hashes, ClusterIn(m)), SpanCountOf)[i] == Map(hashes, CountOf(TraceHashOf, m.spans))[i]
    {
      ClusterSize(m, hashes[i]);
    }
  }

  lemma ClusterSize(m: TraceManifest, traceHash: string)
    ensures SpanCountOf(ClusterIn(m)(traceHash)) == CountOf(TraceHashOf, m.spans)(traceHash)
  {
    hide Filter, Count, ClusterIn;
    ClusterFields(m, traceHash);
    CountIsFilterLength(m.spans, Having(TraceHashOf, traceHash));
  }

  predicate FewPerCluster(m: TraceManifest) {
    forall i :: 0 <= i < |TraceHashes(m.spans)| ==> FewIdentifiers(ClusterIn(m)(TraceHashes(m.spans)[i]))
  }

  lemma ClustersOfManifestParse(m: TraceManifest, source: FixtureSource)
    requires Checked(m) && source.traceSourceSha == m.sourceSha
    ensures var clusters := Map(TraceHashes(m.spans), ClusterIn(m));
            && (ParseClusters(clusters, source).Ok? <==> FewPerCluster(m))
            && (ParseClusters(clusters, source).Ok? ==> ParseClusters(clusters, source).value == clusters)
  {
    hide ParseCluster, FewIdentifiers, ClusterOf, TraceHashes, Distinct, IsSha256, ParseSpan, Checked;
    var hashes := TraceHashes(m.spans);
    var clusters := Map(hashes, ClusterIn(m));
    forall i | 0 <= i < |clusters|
      ensures ParseCluster(clusters[i], source) == if FewIdentifiers(clusters[i]) then Ok(clusters[i]) else Err(BadIdentifiers)
    {
      assert hashes[i] in hashes;
      GroupIsGood(m, hashes[i]);
      ClusterParses(source, hashes[i], GroupOf(TraceHashOf, m.spans)(hashes[i]));
    }
    ClustersParse(clusters, source);
  }

  // ---------------------------------------------------------------- the clusters partition the spans

  function RefsOf(c: Cluster): seq<string> { c.spanRefs }

  lemma {:induction false} ConcatRefs(m: TraceManifest, hashes: seq<string>)
    ensures multiset(Concat(Map(Map(hashes, ClusterIn(m)), RefsOf)))
            == multiset(Map(Concat(Map(hashes, GroupOf(TraceHashOf, m.spans))), ReferenceOf))
  {
    hide Sort, Filter, ClusterIn;
    if hashes != [] {
      var n := |hashes| - 1;
      var front := hashes[..n];
      ConcatRefs(m, front);
      var clusters, groups := Map(hashes, ClusterIn(m)), Map(hashes, GroupOf(TraceHashOf, m.spans));
      assert Map(clusters, RefsOf)[..n] == Map(Map(front, ClusterIn(m)), RefsOf);
      assert groups[..n] == Map(front, GroupOf(TraceHashOf, m.spans));
      assert Map(Concat(groups), ReferenceOf) == Map(Concat(groups[..n]), ReferenceOf) + Map(groups[n], ReferenceOf);
      ClusterFields(m, hashes[n]);
      assert multiset(clusters[n].spanRefs) == multiset(Map(groups[n], ReferenceOf));
    }
  }

  /** The reference is that of a span of this trace. */
  ghost predicate NamesSpan(m: TraceManifest, traceHash: string, r: string) {
    exists k :: 0 <= k < |m.spans| && m.spans[k].traceHash == traceHash && m.spans[k].evidenceRef == r
  }

  /** The clusters partition the spans of the manifest: together they name every
      span reference as often as the manifest does, and each names exactly the
      spans of its trace. */
  lemma ClustersPartitionSpans(m: TraceManifest, manifestSha: string, fixtureId: string, maxClusters: int)
    requires Generated(m, manifestSha, fixtureId, maxClusters).Ok?
    ensures var f := Generated(m, manifestSha, fixtureId, maxClusters).value;
            && multiset(Concat(Map(f.clusters, RefsOf))) == multiset(Map(m.spans, ReferenceOf))
            && (forall i, j :: 0 <= i < j < |f.clusters| ==> f.clusters[i].traceHash != f.clusters[j].traceHash)
            && (forall i, r :: 0 <= i < |f.clusters| && r in f.clusters[i].spanRefs ==> NamesSpan(m, f.clusters[i].traceHash, r))
  {
    hide ParseManifest, SortedSet, Increasing, Sort, Filter, Checked, IsSafeId, ClusterIn, NamesSpan, Concat, Distinct;
    ParsedIsChecked(m);
    var hashes, all := TraceHashes(m.spans), Map(m.spans, TraceHashOf);
    SortedSetIncreasing(all);
    IncreasingDistinct(hashes);
    forall i | 0 <= i < |m.spans| ensures TraceHashOf(m.spans[i]) in hashes {
      assert all[i] in all;
    }
    GroupsPartition(hashes, TraceHashOf, m.spans);
    ConcatRefs(m, hashes);
    forall i, j | 0 <= i < j < |hashes| ensures ClusterIn(m)(hashes[i]).traceHash != ClusterIn(m)(hashes[j]).traceHash {
      ClusterFields(m, hashes[i]);
      ClusterFields(m, hashes[j]);
    }
    MapPermutes(Concat(Map(hashes, GroupOf(TraceHashOf, m.spans))), m.spans, ReferenceOf);
    var f := Generated(m, manifestSha, fixtureId, maxClusters).value;
    forall i, r | 0 <= i < |f.clusters| && r in f.clusters[i].spanRefs
      ensures NamesSpan(m, f.clusters[i].traceHash, r)
    {
      ClusterFields(m, hashes[i]);
      RefIsOfTrace(m, hashes[i], r);
    }
  }

  lemma RefIsOfTrace(m: TraceManifest, traceHash: string, r: string)
    requires r in ClusterIn(m)(traceHash).spanRefs
    ensures NamesSpan(m, traceHash, r)
  {
    hide Filter, Sort, ClusterIn;
    ClusterFields(m, traceHash);
    var group := GroupOf(TraceHashOf, m.spans)(traceHash);
    SameElements(Map(group, ReferenceOf), ClusterIn(m)(traceHash).spanRefs);
    var j :| 0 <= j < |group| && Map(group, ReferenceOf)[j] == r;
    var k := FilterSource(m.spans, Having(TraceHashOf, traceHash), j);
    assert m.spans[k].traceHash == traceHash && m.spans[k].evidenceRef == r;
  }

  // ---------------------------------------------------------------- what the redundant fields say

  ghost predicate IsEarliest(spans: seq<CollectedSpan>, earliest: Option<int>) {
    if earliest.None? then forall i :: 0 <= i < |spans| ==> spans[i].start.None?
    else && (exists i :: 0 <= i < |spans| && spans[i].start == earliest)
         && forall i :: 0 <= i < |spans| && spans[i].start.Some? ==> earliest.value <= spans[i].start.value
  }

  ghost predicate IsLatest(spans: seq<CollectedSpan>, latest: Option<int>) {
    if latest.None? then forall i :: 0 <= i < |spans| ==> spans[i].end.None?
    else && (exists i :: 0 <= i < |spans| && spans[i].end == latest)
         && forall i :: 0 <= i < |spans| && spans[i].end.Some? ==> spans[i].end.value <= latest.value
  }

  /** The observation window reaches from the earliest start to the latest end. */
  lemma {:induction false} WindowIsTight(spans: seq<CollectedSpan>)
    ensures IsEarliest(spans, EarliestOf(spans)) && IsLatest(spans, LatestOf(spans))
  {
    if spans != [] {
      var n := |spans| - 1;
      var front := spans[..n];
      WindowIsTight(front);
      assert forall i :: 0 <= i < n ==> spans[i] == front[i];
      if EarliestOf(front).Some? {
        var i :| 0 <= i < n && front[i].start == EarliestOf(front);
        assert spans[i].start == EarliestOf(front);
      }
      if LatestOf(front).Some? {
        var i :| 0 <= i < n && front[i].end == LatestOf(front);
        assert spans[i].end == LatestOf(front);
      }
      assert EarliestOf(spans) == spans[n].start || EarliestOf(spans) == EarliestOf(front);
      assert LatestOf(spans) == spans[n].end || LatestOf(spans) == LatestOf(front);
    }
  }

  /** A span carries this text under one of the keys. */
  ghost predicate Carries(span: CollectedSpan, keys: seq<string>, text: string) {
    exists k :: 0 <= k < |keys| && keys[k] in span.attributes && span.attributes[keys[k]] == Text(text)
  }

  lemma {:induction false} InConcat<T>(parts: seq<seq<T>>, i: nat, x: T)
    requires i < |parts| && x in parts[i]
    ensures x in Concat(parts)
  {
    if i < |parts| - 1 {
      InConcat(parts[..|parts| - 1], i, x);
    }
  }

  lemma CarriedText(span: CollectedSpan, keys: seq<string>, k: nat, text: string)
    requires k < |keys| && text in TextUnder(span)(keys[k])
    ensures Carries(span, keys, text)
  {
    assert keys[k] in span.attributes && span.attributes[keys[k]] == Text(text);
  }

  lemma KeyOfText(span: CollectedSpan, keys: seq<string>, text: string) returns (k: nat)
    requires Carries(span, keys, text)
    ensures k < |keys| && text in TextUnder(span)(keys[k])
  {
    k :| 0 <= k < |keys| && keys[k] in span.attributes && span.attributes[keys[k]] == Text(text);
  }

  /** The identifiers of a cluster are exactly the texts its spans carry. */
  lemma IdentifiersAreCarried(keys: seq<string>, spans: seq<CollectedSpan>, text: string)
    ensures text in Identifiers(keys, spans) <==> exists i :: 0 <= i < |spans| && Carries(spans[i], keys, text)
  {
    hide SortedSet, Increasing, Concat, Carries;
    var parts := Map(spans, IdentifiersOf(keys));
    SortedSetIncreasing(Concat(parts));
    if text in Concat(parts) {
      ConcatMembers(parts, text);
      var i :| 0 <= i < |parts| && text in parts[i];
      ConcatMembers(Map(keys, TextUnder(spans[i])), text);
      var k :| 0 <= k < |keys| && text in Map(keys, TextUnder(spans[i]))[k];
      CarriedText(spans[i], keys, k, text);
    }
    if i :| 0 <= i < |spans| && Carries(spans[i], keys, text) {
      var k := KeyOfText(spans[i], keys, text);
      InConcat(Map(keys, TextUnder(spans[i])), k, text);
      InConcat(parts, i, text);
    }
  }

  // -- how many identifiers a trace carries

  /** The distinct texts that the spans of a trace carry under the keys. */
  ghost function TextsOf(keys: seq<string>, m: TraceManifest, traceHash: string): set<string> {
    set i, k | 0 <= i < |m.spans| && 0 <= k < |keys| && InTrace(m, traceHash, i) && HasText(m.spans[i], keys[k])
      :: m.spans[i].attributes[keys[k]].text
  }

  predicate InTrace(m: TraceManifest, traceHash: string, i: nat)
    requires i < |m.spans|
  {
    m.spans[i].traceHash == traceHash
  }

  predicate HasText(span: CollectedSpan, key: string) {
    key in span.attributes && span.attributes[key].Text?
  }

  /** No trace carries more than 10,000 distinct models, or providers. */
  ghost predicate FewIdentifiersPerTrace(m: TraceManifest) {
    forall i :: 0 <= i < |m.spans| ==>
      && |TextsOf(MODEL_KEYS, m, m.spans[i].traceHash)| <= MAX_IDENTIFIERS
      && |TextsOf(PROVIDER_KEYS, m, m.spans[i].traceHash)| <= MAX_IDENTIFIERS
  }

  lemma CarriedInTrace(keys: seq<string>, m: TraceManifest, traceHash: string, text: string)
    ensures text in TextsOf(keys, m, traceHash) <==>
              exists i :: 0 <= i < |m.spans| && InTrace(m, traceHash, i) && Carries(m.spans[i], keys, text)
  {
    if text in TextsOf(keys, m, traceHash) {
      var i, k :| 0 <= i < |m.spans| && 0 <= k < |keys| && InTrace(m, traceHash, i) && HasText(m.spans[i], keys[k])
                  && text == m.spans[i].attributes[keys[k]].text;
      assert Carries(m.spans[i], keys, text);
    }
    if i :| 0 <= i < |m.spans| && InTrace(m, traceHash, i) && Carries(m.spans[i], keys, text) {
      var k :| 0 <= k < |keys| && keys[k] in m.spans[i].attributes && m.spans[i].attributes[keys[k]] == Text(text);
      assert HasText(m.spans[i], keys[k]);
    }
  }

  lemma CarriedInGroup(keys: seq<string>, m: TraceManifest, traceHash: string, text: string)
    ensures var group := GroupOf(TraceHashOf, m.spans)(traceHash);
            (exists i :: 0 <= i < |group| && Carries(group[i], keys, text)) <==>
              exists i :: 0 <= i < |m.spans| && InTrace(m, traceHash, i) && Carries(m.spans[i], keys, text)
  {
    hide Carries, Filter;
    var group := GroupOf(TraceHashOf, m.spans)(traceHash);
    if i :| 0 <= i < |group| && Carries(group[i], keys, text) {
      var j := FilterSource(m.spans, Having(TraceHashOf, traceHash), i);
      assert TraceHashOf(m.spans[j]) == traceHash;
      assert InTrace(m, traceHash, j);
    }
    if j :| 0 <= j < |m.spans| && InTrace(m, traceHash, j) && Carries(m.spans[j], keys, text) {
      FilterMembers(m.spans, Having(TraceHashOf, traceHash));
      assert TraceHashOf(m.spans[j]) == traceHash;
      assert Having(TraceHashOf, traceHash)(m.spans[j]);
      assert m.spans[j] in group;
    }
  }

  /** A cluster lists as many identifiers as its trace carries distinct texts. */
  lemma IdentifiersCounted(keys: seq<string>, m: TraceManifest, traceHash: string)
    ensures |Identifiers(keys, GroupOf(TraceHashOf, m.spans)(traceHash))| == |TextsOf(keys, m, traceHash)|
  {
    hide TextsOf, Filter, SortedSet, Increasing, Concat, Carries, InTrace;
    var group := GroupOf(TraceHashOf, m.spans)(traceHash);
    var identifiers := Identifiers(keys, group);
    forall text ensures text in identifiers <==> text in TextsOf(keys, m, traceHash) {
      IdentifiersAreCarried(keys, group, text);
      CarriedInGroup(keys, m, traceHash, text);
      CarriedInTrace(keys, m, traceHash, text);
    }
    SortedSetIncreasing(Concat(Map(group, IdentifiersOf(keys))));
    SameCardinality(identifiers, TextsOf(keys, m, traceHash));
  }

  lemma ClusterIdentifiers(m: TraceManifest, traceHash: string)
    ensures var c := ClusterIn(m)(traceHash);
            |c.models| == |TextsOf(MODEL_KEYS, m, traceHash)| && |c.providers| == |TextsOf(PROVIDER_KEYS, m, traceHash)|
  {
    hide TextsOf, Sort, Map, Filter, Count, Identifiers, KindNames, StatusCodes, EarliestOf, LatestOf;
    IdentifiersCounted(MODEL_KEYS, m, traceHash);
    IdentifiersCounted(PROVIDER_KEYS, m, traceHash);
  }

  lemma FewInClustersIsFewInTraces(m: TraceManifest)
    ensures FewPerCluster(m) <==> FewIdentifiersPerTrace(m)
  {
    hide TextsOf, ClusterIn, SortedSet, Increasing;
    var hashes, all := TraceHashes(m.spans), Map(m.spans, TraceHashOf);
    SortedSetIncreasing(all);
    forall h: string ensures FewIdentifiers(ClusterIn(m)(h)) <==>
      |TextsOf(MODEL_KEYS, m, h)| <= MAX_IDENTIFIERS && |TextsOf(PROVIDER_KEYS, m, h)| <= MAX_IDENTIFIERS
    {
      ClusterIdentifiers(m, h);
    }
    forall i | 0 <= i < |m.spans| ensures m.spans[i].traceHash in hashes {
      assert all[i] in all;
    }
    forall i | 0 <= i < |hashes| ensures exists j :: 0 <= j < |m.spans| && m.spans[j].traceHash == hashes[i] {
      assert hashes[i] in hashes && hashes[i] in all;
      var j :| 0 <= j < |all| && all[j] == hashes[i];
      assert m.spans[j].traceHash == hashes[i];
    }
  }

  /** The strict parser gives a generated fixture back unchanged exactly when no
      trace of the manifest carries too many identifiers: the generator has no
      such limit. */
  lemma GeneratedFixtureParses(m: TraceManifest, manifestSha: string, fixtureId: string, maxClusters: int)
    requires IsSha256(manifestSha) && Generated(m, manifestSha, fixtureId, maxClusters).Ok?
    ensures var f := Generated(m, manifestSha, fixtureId, maxClusters).value;
            && (ParseFixture(f).Ok? <==> FewIdentifiersPerTrace(m))
            && (ParseFixture(f).Ok? ==> ParseFixture(f).value == f)
  {
    hide ParseManifest, ParseClusters, FewIdentifiersPerTrace, FewPerCluster, IsSha256, IsSafeId, SortedSet, TraceHashes, Distinct,
      ParseSpan, ClusterOf, Sum;
    ParsedIsChecked(m);
    var f := Generated(m, manifestSha, fixtureId, maxClusters).value;
    ClustersOfManifestParse(m, f.source);
    FewInClustersIsFewInTraces(m);
    ClusterIdsIncrease(m);
    CountsAddUp(m);
    assert |f.clusters| == |TraceHashes(m.spans)| == m.traceCount;
  }

  // -- a trace that carries too many

  function HexDigit(d: nat): char
    requires d < 16
  {
    "0123456789abcdef"[d]
  }

  /** The four hexadecimal digits of i. */
  function Code(i: nat): string
    requires i < 0x1_0000
  {
    [HexDigit(i / 16 / 16 / 16), HexDigit(i / 16 / 16 % 16), HexDigit(i / 16 % 16), HexDigit(i % 16)]
  }

  function DigitValue(c: char): int {
    if '0' <= c <= '9' then c as int - '0' as int else c as int - 'a' as int + 10
  }

  lemma HexDigits(d: nat)
    requires d < 16
    ensures IsLowerHex(HexDigit(d)) && DigitValue(HexDigit(d)) == d
  {
  }

  lemma CodeIsHex(i: nat)
    requires i < 0x1_0000
    ensures forall k :: 0 <= k < 4 ==> IsLowerHex(Code(i)[k])
    ensures IsSafeText(Code(i))
  {
    hide HexDigit, DigitValue;
    HexDigits(i / 16 / 16 / 16);
    HexDigits(i / 16 / 16 % 16);
    HexDigits(i / 16 % 16);
    HexDigits(i % 16);
  }

  lemma CodeLength(i: nat)
    requires i < 0x1_0000
    ensures |Code(i)| == 4
  {
  }

  lemma CodeValue(i: nat)
    requires i < 0x1_0000
    ensures i == 16 * (16 * (16 * DigitValue(Code(i)[0]) + DigitValue(Code(i)[1])) + DigitValue(Code(i)[2])) + DigitValue(Code(i)[3])
  {
    hide HexDigit, DigitValue;
    HexDigits(i / 16 / 16 / 16);
    HexDigits(i / 16 / 16 % 16);
    HexDigits(i / 16 % 16);
    HexDigits(i % 16);
  }

  lemma CodesDiffer(i: nat, j: nat)
    requires i < j < 0x1_0000
    ensures Code(i) != Code(j)
  {
    hide Code, DigitValue;
    CodeValue(i);
    CodeValue(j);
  }

  function Zeros(n: nat): string { seq(n, _ => '0') }

  /** A span of trace 00...0 that carries one model of its own. */
  function ModelSpan(i: nat): CollectedSpan
    requires i < 0x1_0000
  {
    var spanHash := Zeros(60) + Code(i);
    CollectedSpan(SpanRef(Zeros(64), spanHash), Zeros(64), spanHash, None, None, None, None, None, None,
                  map["llm.model_name" := Text(Code(i))])
  }

  /** One trace of n spans, each with another model. */
  function ManyModels(n: nat): TraceManifest
    requires n <= 0x1_0000
  {
    TraceManifest("trace", Zeros(64), 1, 1, n, n, 0, 0, seq(n, (i: nat) requires i < n => ModelSpan(i)))
  }

  lemma ModelSpanParses(i: nat)
    requires i < 0x1_0000
    ensures ParseSpan(ModelSpan(i), Zeros(64)) == Ok(ModelSpan(i)) && KeptOf(ModelSpan(i)) == 1
  {
    hide Code;
    CodeIsHex(i);
    assert |Zeros(60)| == 60 && |Code(i)| == 4 by { CodeLength(i); }
    forall k | 0 <= k < 64 ensures IsLowerHex((Zeros(60) + Code(i))[k]) {
      if k >= 60 { assert (Zeros(60) + Code(i))[k] == Code(i)[k - 60]; }
    }
    assert IsTextKey("llm.model_name") by { assert SAFE_TEXT_ATTRIBUTES[5] == "llm.model_name"; }
    assert AllowedValue("llm.model_name", Text(Code(i)));
  }

  lemma ModelSpansDiffer(i: nat, j: nat)
    requires i < j < 0x1_0000
    ensures ModelSpan(i).spanHash != ModelSpan(j).spanHash && ModelSpan(i).evidenceRef != ModelSpan(j).evidenceRef
  {
    hide Code;
    CodesDiffer(i, j);
    assert (Zeros(60) + Code(i))[60..] == Code(i) && (Zeros(60) + Code(j))[60..] == Code(j);
    SpanRefInjective(Zeros(64), Zeros(60) + Code(i), Zeros(60) + Code(j));
  }

  lemma {:induction false} SumOfOnes(s: seq<int>)
    requires forall i :: 0 <= i < |s| ==> s[i] == 1
    ensures Sum(s) == |s|
  {
    if s != [] { SumOfOnes(s[..|s| - 1]); }
  }

  lemma ManyModelsParse(n: nat)
    requires 1 <= n <= 0x1_0000
    ensures ParseManifest(ManyModels(n)).Ok?
  {
    hide ModelSpan, ParseSpan, ParseSpans, Zeros;
    var m := ManyModels(n);
    forall i | 0 <= i < n ensures ParseSpan(m.spans[i], m.sourceSha).Ok? && KeptOf(m.spans[i]) == 1 { ModelSpanParses(i); }
    SpansParse(m.spans, m.sourceSha);
    OneTrace(n);
    forall i, j | 0 <= i < j < n
      ensures m.spans[i].spanHash != m.spans[j].spanHash && m.spans[i].evidenceRef != m.spans[j].evidenceRef
    {
      ModelSpansDiffer(i, j);
    }
    DistinctCardinality(Map(m.spans, SpanIdentity));
    DistinctCardinality(Map(m.spans, ReferenceOf));
    SumOfOnes(Map(m.spans, KeptOf));
    assert IsSha256(m.sourceSha) by { ZerosAreHex(); }
    assert IsSafeId("trace");
  }

  lemma ZerosAreHex()
    ensures IsSha256(Zeros(64))
  {
  }

  lemma OneTrace(n: nat)
    requires 1 <= n <= 0x1_0000
    ensures Elements(Map(ManyModels(n).spans, TraceHashOf)) == {Zeros(64)}
  {
    hide Zeros, Code;
    var hashes := Map(ManyModels(n).spans, TraceHashOf);
    assert forall i :: 0 <= i < n ==> hashes[i] == Zeros(64);
    assert hashes[0] in hashes;
  }

  lemma ModelsCarried(n: nat)
    requires 1 <= n <= 0x1_0000
    ensures |TextsOf(MODEL_KEYS, ManyModels(n), Zeros(64))| == n && |TextsOf(PROVIDER_KEYS, ManyModels(n), Zeros(64))| == 0
  {
    hide Zeros, Code, TextsOf;
    var m := ManyModels(n);
    var codes := seq(n, (i: nat) requires i < n => Code(i));
    forall i, j | 0 <= i < j < n ensures codes[i] != codes[j] { CodesDiffer(i, j); }
    DistinctCardinality(codes);
    forall text ensures text in TextsOf(MODEL_KEYS, m, Zeros(64)) <==> text in Elements(codes) {
      CarriedInTrace(MODEL_KEYS, m, Zeros(64), text);
      CarriedModel(n, text);
    }
    assert TextsOf(MODEL_KEYS, m, Zeros(64)) == Elements(codes);
    forall text ensures text !in TextsOf(PROVIDER_KEYS, m, Zeros(64)) {
      CarriedInTrace(PROVIDER_KEYS, m, Zeros(64), text);
    }
    assert TextsOf(PROVIDER_KEYS, m, Zeros(64)) == {};
  }

  lemma CarriedModel(n: nat, text: string)
    requires 1 <= n <= 0x1_0000
    ensures var m := ManyModels(n);
            (exists i :: 0 <= i < n && InTrace(m, Zeros(64), i) && Carries(m.spans[i], MODEL_KEYS, text)) <==>
              text in seq(n, (i: nat) requires i < n => Code(i))
  {
    hide Zeros, Code;
    var m := ManyModels(n);
    var codes := seq(n, (i: nat) requires i < n => Code(i));
    forall i | 0 <= i < n ensures InTrace(m, Zeros(64), i) && (Carries(m.spans[i], MODEL_KEYS, text) <==> text == codes[i]) {
      assert MODEL_KEYS[3] == "llm.model_name";
    }
    if text in codes {
      var i :| 0 <= i < n && codes[i] == text;
      assert InTrace(m, Zeros(64), i);
    }
  }

  /** A fixture that its own parser refuses: one trace of more than 10,000 spans
      with a model each. The manifest is in order, and so is the generation. */
  lemma ManyModelsAreRefused(n: nat, manifestSha: string, fixtureId: string, maxClusters: int)
    requires 1 <= n <= 0x1_0000 && IsSha256(manifestSha) && IsSafeId(fixtureId) && 1 <= maxClusters <= MAX_CLUSTERS
    ensures ParseManifest(ManyModels(n)).Ok? && Generated(ManyModels(n), manifestSha, fixtureId, maxClusters).Ok?
    ensures ParseFixture(Generated(ManyModels(n), manifestSha, fixtureId, maxClusters).value).Ok? <==> n <= MAX_IDENTIFIERS
  {
    hide ParseManifest, ParseFixture, TextsOf, IsSha256, IsSafeId, TraceHashes, Elements, Zeros, Code, ClusterIn;
    var m := ManyModels(n);
    ManyModelsParse(n);
    ParsedIsChecked(m);
    CountsAddUp(m);
    OneTrace(n);
    GeneratedFixtureParses(m, manifestSha, fixtureId, maxClusters);
    ModelsCarried(n);
    assert forall i :: 0 <= i < n ==> m.spans[i].traceHash == Zeros(64);
    assert FewIdentifiersPerTrace(m) <==> n <= MAX_IDENTIFIERS by {
      assert m.spans[0].traceHash == Zeros(64);
    }
  }

  /** Every span with a kind is counted under it, once. */
  lemma KindsAddUp(spans: seq<CollectedSpan>)
    ensures Sum(Map(Map(KindNames(spans), KindCount(spans)), CountOfNamed)) == Count(spans, HasKind)
  {
    hide Sum, Count, KindNames, Filter, KindOf;
    var named := Filter(spans, HasKind);
    KindNamesShow(spans);
    KindCountsShow(spans, KindNames(spans));
    CountIsFilterLength(spans, HasKind);
    SizesAddUp(KindNames(spans), KindOf, named);
    forall i | 0 <= i < |named| ensures KindOf(named[i]) in KindNames(spans) {
      var j := FilterSource(spans, HasKind, i);
    }
    SameCounts(spans, KindNames(spans));
  }

  function HasKind(span: CollectedSpan): bool { KindOf(span) != "" }

  lemma KindNamesShow(spans: seq<CollectedSpan>)
    ensures Distinct(KindNames(spans)) && "" !in KindNames(spans)
    ensures forall j :: 0 <= j < |spans| && HasKind(spans[j]) ==> KindOf(spans[j]) in KindNames(spans)
  {
    hide KindOf, Filter, SortedSet;
    var kinds := Map(spans, KindOf);
    var named := Filter(kinds, (kind: string) => kind != "");
    SortedSetIncreasing(named);
    IncreasingDistinct(KindNames(spans));
    FilterMembers(kinds, (kind: string) => kind != "");
    forall j | 0 <= j < |spans| && HasKind(spans[j]) ensures KindOf(spans[j]) in KindNames(spans) {
      assert kinds[j] in kinds && kinds[j] in named;
    }
  }

  lemma SameCounts(spans: seq<CollectedSpan>, names: seq<string>)
    requires "" !in names
    ensures Map(names, CountOf(KindOf, spans)) == Map(names, CountOf(KindOf, Filter(spans, HasKind)))
  {
    hide KindOf;
    forall i | 0 <= i < |names| ensures Count(spans, Having(KindOf, names[i])) == Count(Filter(spans, HasKind), Having(KindOf, names[i])) {
      CountKept(spans, names[i]);
    }
  }

  lemma {:induction false} CountKept(spans: seq<CollectedSpan>, name: string)
    requires name != ""
    ensures Count(spans, Having(KindOf, name)) == Count(Filter(spans, HasKind), Having(KindOf, name))
  {
    hide KindOf;
    if spans != [] {
      var front, x := spans[..|spans| - 1], spans[|spans| - 1];
      var kept := Filter(front, HasKind);
      CountKept(front, name);
      assert Filter(spans, HasKind) == if HasKind(x) then kept + [x] else kept;
      assert (kept + [x])[..|kept|] == kept;
      assert Having(KindOf, name)(x) ==> HasKind(x);
    }
  }
}
