/** What a fixture of src/causure/fixtures.py reports of a manifest, cluster by
    cluster, over the spans of the manifest themselves. */
module FixtureReport {
  import opened Vocabulary
  import opened Sequences
  import opened Sorting
  import opened Grouping
  import opened Tracing
  import opened Manifest
  import opened Fixture

  // ---------------------------------------------------------------- counting inside a group

  lemma {:induction false} CountInGroup<T>(s: seq<T>, q: T -> bool, p: T -> bool, both: T -> bool)
    requires forall i :: 0 <= i < |s| ==> both(s[i]) == (q(s[i]) && p(s[i]))
    ensures Count(Filter(s, q), p) == Count(s, both)
  {
    if s != [] {
      var n := |s| - 1;
      var kept := Filter(s[..n], q);
      assert forall i :: 0 <= i < n ==> s[..n][i] == s[i];
      CountInGroup(s[..n], q, p, both);
      assert both(s[n]) == (q(s[n]) && p(s[n]));
      if q(s[n]) {
        assert Filter(s, q) == kept + [s[n]];
        assert (kept + [s[n]])[..|kept|] == kept;
      } else {
        assert Filter(s, q) == kept;
      }
    }
  }

  /** Counting in the group of a trace counts positions of the manifest. */
  lemma CountedIn(m: TraceManifest, traceHash: string, p: CollectedSpan -> bool, positions: set<int>)
    requires forall i :: i in positions <==> 0 <= i < |m.spans| && m.spans[i].traceHash == traceHash && p(m.spans[i])
    ensures Count(GroupOf(TraceHashOf, m.spans)(traceHash), p) == |positions|
  {
    hide Count, Filter;
    var both := (span: CollectedSpan) => span.traceHash == traceHash && p(span);
    forall i | 0 <= i < |m.spans|
      ensures both(m.spans[i]) == (Having(TraceHashOf, traceHash)(m.spans[i]) && p(m.spans[i]))
    {
      assert TraceHashOf(m.spans[i]) == m.spans[i].traceHash;
    }
    CountInGroup(m.spans, Having(TraceHashOf, traceHash), p, both);
    CountIsCardinality(m.spans, both);
    assert Indices(m.spans, both) == positions;
  }

  // ---------------------------------------------------------------- the report of one trace

  /** Positions of the spans of a trace. */
  ghost function SpansOf(m: TraceManifest, traceHash: string): set<int> {
    set i | 0 <= i < |m.spans| && m.spans[i].traceHash == traceHash
  }

  ghost function RootsOf(m: TraceManifest, traceHash: string): set<int> {
    set i | 0 <= i < |m.spans| && m.spans[i].traceHash == traceHash && m.spans[i].parentHash == None
  }

  ghost function OfStatus(m: TraceManifest, traceHash: string, code: int): set<int> {
    set i | 0 <= i < |m.spans| && m.spans[i].traceHash == traceHash && m.spans[i].status == Some(code)
  }

  ghost predicate IsOfKind(span: CollectedSpan, name: string) {
    "openinference.span.kind" in span.attributes && span.attributes["openinference.span.kind"] == Text(name)
  }

  ghost function OfKind(m: TraceManifest, traceHash: string, name: string): set<int> {
    set i | 0 <= i < |m.spans| && m.spans[i].traceHash == traceHash && IsOfKind(m.spans[i], name)
  }

  /** The earliest of some times, if there are any. */
  ghost predicate IsFirst(times: set<int>, first: Option<int>) {
    if first.None? then times == {} else first.value in times && forall t :: t in times ==> first.value <= t
  }

  ghost predicate IsLast(times: set<int>, last: Option<int>) {
    if last.None? then times == {} else last.value in times && forall t :: t in times ==> t <= last.value
  }

  ghost function StartsOf(m: TraceManifest, traceHash: string): set<int> {
    set i | 0 <= i < |m.spans| && m.spans[i].traceHash == traceHash && m.spans[i].start.Some? :: m.spans[i].start.value
  }

  ghost function EndsOf(m: TraceManifest, traceHash: string): set<int> {
    set i | 0 <= i < |m.spans| && m.spans[i].traceHash == traceHash && m.spans[i].end.Some? :: m.spans[i].end.value
  }

  ghost predicate CountsReported(m: TraceManifest, c: Cluster) {
    && c.spanCount == |SpansOf(m, c.traceHash)| && c.rootSpanCount == |RootsOf(m, c.traceHash)|
    && c.errorSpanCount == |OfStatus(m, c.traceHash, 2)|
    && (forall code, n :: StatusCount(code, n) in c.statusCounts <==> 0 <= code <= 2 && n == |OfStatus(m, c.traceHash, code)| > 0)
    && (forall name, n :: NamedCount(name, n) in c.kindCounts <==> name != "" && n == |OfKind(m, c.traceHash, name)| > 0)
  }

  ghost predicate WindowReported(m: TraceManifest, c: Cluster) {
    && IsFirst(StartsOf(m, c.traceHash), c.earliest) && IsLast(EndsOf(m, c.traceHash), c.latest)
    && (c.duration.Some? <==> c.earliest.Some? && c.latest.Some? && c.earliest.value <= c.latest.value)
    && (c.duration.Some? ==> c.earliest.value + c.duration.value == c.latest.value)
  }

  ghost function ModelKeys(): seq<string> {
    ["embedding.model_name", "gen_ai.request.model", "gen_ai.response.model", "llm.model_name"]
  }

  ghost function ProviderKeys(): seq<string> {
    ["gen_ai.provider.name", "llm.provider", "llm.system"]
  }

  ghost predicate IdentifiersReported(m: TraceManifest, c: Cluster) {
    && (forall text :: text in c.models <==> text in TextsOf(ModelKeys(), m, c.traceHash))
    && (forall text :: text in c.providers <==> text in TextsOf(ProviderKeys(), m, c.traceHash))
    && (forall r :: r in c.spanRefs <==> NamesSpan(m, c.traceHash, r))
  }

  lemma CountsAreReported(m: TraceManifest, traceHash: string)
    ensures CountsReported(m, ClusterIn(m)(traceHash))
  {
    hide Sort, Identifiers, EarliestOf, LatestOf, KindNames, StatusCodes, Count, Filter, Map;
    hide SpansOf, RootsOf, OfStatus, OfKind, Having, KindCount, StatusCounted;
    var c, group := ClusterIn(m)(traceHash), GroupOf(TraceHashOf, m.spans)(traceHash);
    GroupSize(m, traceHash);
    RootCounts(m, traceHash);
    StatusCounts(m, traceHash, 2);
    StatusEntries(group);
    KindEntries(group);
    forall code, n
      ensures StatusCount(code, n) in c.statusCounts <==> 0 <= code <= 2 && n == |OfStatus(m, traceHash, code)| > 0
    {
      if code >= 0 { StatusCounts(m, traceHash, code); }
    }
    forall name, n ensures NamedCount(name, n) in c.kindCounts <==> name != "" && n == |OfKind(m, traceHash, name)| > 0 {
      if name != "" { KindCounts(m, traceHash, name); }
    }
  }

  lemma GroupSize(m: TraceManifest, traceHash: string)
    ensures |GroupOf(TraceHashOf, m.spans)(traceHash)| == |SpansOf(m, traceHash)|
  {
    var every := (span: CollectedSpan) => true;
    CountedIn(m, traceHash, every, SpansOf(m, traceHash));
    CountUniform(GroupOf(TraceHashOf, m.spans)(traceHash), every, true);
  }

  lemma RootCounts(m: TraceManifest, traceHash: string)
    ensures Count(GroupOf(TraceHashOf, m.spans)(traceHash), IsRoot) == |RootsOf(m, traceHash)|
  {
    hide Count, Filter;
    CountedIn(m, traceHash, IsRoot, RootsOf(m, traceHash));
  }

  lemma StatusCounts(m: TraceManifest, traceHash: string, code: int)
    requires code >= 0
    ensures Count(GroupOf(TraceHashOf, m.spans)(traceHash), Having(StatusOf, code)) == |OfStatus(m, traceHash, code)|
  {
    hide Count, Filter;
    forall i | 0 <= i < |m.spans| ensures Having(StatusOf, code)(m.spans[i]) <==> m.spans[i].status == Some(code) {
      assert StatusOf(m.spans[i]) == if m.spans[i].status.Some? then m.spans[i].status.value else -1;
    }
    CountedIn(m, traceHash, Having(StatusOf, code), OfStatus(m, traceHash, code));
  }

  lemma KindCounts(m: TraceManifest, traceHash: string, name: string)
    requires name != ""
    ensures Count(GroupOf(TraceHashOf, m.spans)(traceHash), Having(KindOf, name)) == |OfKind(m, traceHash, name)|
  {
    hide Count, Filter;
    forall i | 0 <= i < |m.spans| ensures Having(KindOf, name)(m.spans[i]) <==> IsOfKind(m.spans[i], name) {
      KindIs(m.spans[i], name);
    }
    CountedIn(m, traceHash, Having(KindOf, name), OfKind(m, traceHash, name));
  }

  lemma KindIs(span: CollectedSpan, name: string)
    requires name != ""
    ensures Having(KindOf, name)(span) <==> IsOfKind(span, name)
  {
    assert KindOf(span) == name <==> IsOfKind(span, name);
  }

  /** Which entries the status counts of a group have. */
  lemma StatusEntries(group: seq<CollectedSpan>)
    ensures forall code, n :: StatusCount(code, n) in Map(StatusCodes(group), StatusCounted(group)) <==>
              0 <= code <= 2 && n == Count(group, Having(StatusOf, code)) > 0
  {
    hide Count, StatusCodes, Codes;
    var codes := StatusCodes(group);
    var entries := Map(codes, StatusCounted(group));
    StatusCodesAre(group);
    CodesMembers(Occurs(group));
    assert forall code :: Occurs(group)(code) <==> Count(group, Having(StatusOf, code)) > 0;
    forall code, n | StatusCount(code, n) in entries ensures 0 <= code <= 2 && n == Count(group, Having(StatusOf, code)) > 0 {
      var i :| 0 <= i < |entries| && entries[i] == StatusCount(code, n);
      assert codes[i] in codes;
    }
    forall code | 0 <= code <= 2 && Count(group, Having(StatusOf, code)) > 0
      ensures StatusCount(code, Count(group, Having(StatusOf, code))) in entries
    {
      var i :| 0 <= i < |codes| && codes[i] == code;
      assert entries[i] == StatusCount(code, Count(group, Having(StatusOf, code)));
    }
  }

  lemma CodesMembers(p: int -> bool)
    ensures forall code :: code in Codes(p) <==> 0 <= code <= 2 && p(code)
  {
  }

  lemma KindEntries(group: seq<CollectedSpan>)
    ensures forall name, n :: NamedCount(name, n) in Map(KindNames(group), KindCount(group)) <==>
              name != "" && n == Count(group, Having(KindOf, name)) > 0
  {
    hide Count, KindNames, KindOf;
    var names := KindNames(group);
    var entries := Map(names, KindCount(group));
    forall name ensures name in names <==> name != "" && Count(group, Having(KindOf, name)) > 0 {
      KindListed(group, name);
    }
    forall name, n | NamedCount(name, n) in entries ensures name != "" && n == Count(group, Having(KindOf, name)) > 0 {
      var i :| 0 <= i < |entries| && entries[i] == NamedCount(name, n);
      assert names[i] in names;
    }
    forall name | name != "" && Count(group, Having(KindOf, name)) > 0
      ensures NamedCount(name, Count(group, Having(KindOf, name))) in entries
    {
      var i :| 0 <= i < |names| && names[i] == name;
      assert entries[i] == NamedCount(name, Count(group, Having(KindOf, name)));
    }
  }

  lemma KindListed(group: seq<CollectedSpan>, name: string)
    ensures name in KindNames(group) <==> name != "" && Count(group, Having(KindOf, name)) > 0
  {
    hide Count, KindOf, SortedSet, Filter, Increasing;
    var kinds := Map(group, KindOf);
    var named := Filter(kinds, (kind: string) => kind != "");
    SortedSetIncreasing(named);
    FilterMembers(kinds, (kind: string) => kind != "");
    CountIsFilterLength(group, Having(KindOf, name));
    NoneKept(group, Having(KindOf, name));
    if name in kinds {
      var i :| 0 <= i < |kinds| && kinds[i] == name;
      assert Having(KindOf, name)(group[i]);
    }
    if i :| 0 <= i < |group| && Having(KindOf, name)(group[i]) {
      assert kinds[i] == name;
    }
  }

  lemma WindowIsReported(m: TraceManifest, traceHash: string)
    ensures WindowReported(m, ClusterIn(m)(traceHash))
  {
    hide Sort, Map, Filter, Count, Identifiers, KindNames, StatusCodes, EarliestOf, LatestOf;
    var group := GroupOf(TraceHashOf, m.spans)(traceHash);
    WindowIsTight(group);
    FilterMembers(m.spans, Having(TraceHashOf, traceHash));
    StartsAreThose(m, traceHash, EarliestOf(group));
    EndsAreThose(m, traceHash, LatestOf(group));
  }

  lemma GroupMembers(m: TraceManifest, traceHash: string, span: CollectedSpan)
    ensures span in GroupOf(TraceHashOf, m.spans)(traceHash) <==> span in m.spans && span.traceHash == traceHash
  {
    FilterMembers(m.spans, Having(TraceHashOf, traceHash));
    assert TraceHashOf(span) == span.traceHash;
  }

  lemma StartsAreThose(m: TraceManifest, traceHash: string, first: Option<int>)
    requires IsEarliest(GroupOf(TraceHashOf, m.spans)(traceHash), first)
    ensures IsFirst(StartsOf(m, traceHash), first)
  {
    hide Filter;
    var group := GroupOf(TraceHashOf, m.spans)(traceHash);
    forall t | t in StartsOf(m, traceHash) ensures exists i :: 0 <= i < |group| && group[i].start == Some(t) {
      var j :| 0 <= j < |m.spans| && m.spans[j].traceHash == traceHash && m.spans[j].start == Some(t);
      GroupMembers(m, traceHash, m.spans[j]);
      var i :| 0 <= i < |group| && group[i] == m.spans[j];
      assert group[i].start == Some(t);
    }
    if first.Some? {
      var i :| 0 <= i < |group| && group[i].start == first;
      GroupMembers(m, traceHash, group[i]);
      assert group[i] in group;
      var j :| 0 <= j < |m.spans| && m.spans[j] == group[i];
      assert m.spans[j].traceHash == traceHash && m.spans[j].start.Some?;
      assert m.spans[j].start.value in StartsOf(m, traceHash);
    }
  }

  lemma EndsAreThose(m: TraceManifest, traceHash: string, last: Option<int>)
    requires IsLatest(GroupOf(TraceHashOf, m.spans)(traceHash), last)
    ensures IsLast(EndsOf(m, traceHash), last)
  {
    hide Filter;
    var group := GroupOf(TraceHashOf, m.spans)(traceHash);
    forall t | t in EndsOf(m, traceHash) ensures exists i :: 0 <= i < |group| && group[i].end == Some(t) {
      var j :| 0 <= j < |m.spans| && m.spans[j].traceHash == traceHash && m.spans[j].end == Some(t);
      GroupMembers(m, traceHash, m.spans[j]);
      var i :| 0 <= i < |group| && group[i] == m.spans[j];
      assert group[i].end == Some(t);
    }
    if last.Some? {
      var i :| 0 <= i < |group| && group[i].end == last;
      GroupMembers(m, traceHash, group[i]);
      assert group[i] in group;
      var j :| 0 <= j < |m.spans| && m.spans[j] == group[i];
      assert m.spans[j].traceHash == traceHash && m.spans[j].end.Some?;
      assert m.spans[j].end.value in EndsOf(m, traceHash);
    }
  }

  lemma IdentifiersAreReported(m: TraceManifest, traceHash: string)
    ensures IdentifiersReported(m, ClusterIn(m)(traceHash))
  {
    hide TextsOf, Sort, Map, Filter, Count, Identifiers, KindNames, StatusCodes, EarliestOf, LatestOf, NamesSpan;
    var c, group := ClusterIn(m)(traceHash), GroupOf(TraceHashOf, m.spans)(traceHash);
    assert ModelKeys() == MODEL_KEYS && ProviderKeys() == PROVIDER_KEYS;
    forall text ensures text in c.models <==> text in TextsOf(MODEL_KEYS, m, traceHash) {
      TextListed(MODEL_KEYS, m, traceHash, text);
    }
    forall text ensures text in c.providers <==> text in TextsOf(PROVIDER_KEYS, m, traceHash) {
      TextListed(PROVIDER_KEYS, m, traceHash, text);
    }
    forall r ensures r in c.spanRefs <==> NamesSpan(m, traceHash, r) {
      if r in c.spanRefs { RefIsOfTrace(m, traceHash, r); }
      if NamesSpan(m, traceHash, r) { RefIsListed(m, traceHash, r); }
    }
  }

  lemma TextListed(keys: seq<string>, m: TraceManifest, traceHash: string, text: string)
    ensures text in Identifiers(keys, GroupOf(TraceHashOf, m.spans)(traceHash)) <==> text in TextsOf(keys, m, traceHash)
  {
    hide TextsOf, Filter, Identifiers, Carries, InTrace;
    IdentifiersAreCarried(keys, GroupOf(TraceHashOf, m.spans)(traceHash), text);
    CarriedInGroup(keys, m, traceHash, text);
    CarriedInTrace(keys, m, traceHash, text);
  }

  lemma RefIsListed(m: TraceManifest, traceHash: string, r: string)
    requires NamesSpan(m, traceHash, r)
    ensures r in ClusterIn(m)(traceHash).spanRefs
  {
    hide Filter, Sort, ClusterIn;
    var group := GroupOf(TraceHashOf, m.spans)(traceHash);
    var k :| 0 <= k < |m.spans| && m.spans[k].traceHash == traceHash && m.spans[k].evidenceRef == r;
    GroupMembers(m, traceHash, m.spans[k]);
    var i :| 0 <= i < |group| && group[i] == m.spans[k];
    assert Map(group, ReferenceOf)[i] == r;
    ClusterFields(m, traceHash);
    SameElements(Map(group, ReferenceOf), ClusterIn(m)(traceHash).spanRefs);
  }

  // ---------------------------------------------------------------- the whole fixture

  /** When a fixture is generated. */
  lemma GenerationIsExact(m: TraceManifest, manifestSha: string, fixtureId: string, maxClusters: int)
    ensures Generated(m, manifestSha, fixtureId, maxClusters).Ok? <==>
              && IsSafeId(fixtureId) && 1 <= maxClusters <= 10_000 && ParseManifest(m).Ok?
              && |set i | 0 <= i < |m.spans| :: m.spans[i].traceHash| <= maxClusters
  {
    hide ParseManifest, SortedSet, Increasing, ClusterIn, IsSafeId;
    if ParseManifest(m).Ok? {
      ParsedIsChecked(m);
      var all := Map(m.spans, TraceHashOf);
      var hashes := set i | 0 <= i < |m.spans| :: m.spans[i].traceHash;
      SortedSetIncreasing(all);
      forall h ensures h in all <==> h in hashes {
        if h in all { var i :| 0 <= i < |all| && all[i] == h; }
        if h in hashes {
          var i :| 0 <= i < |m.spans| && m.spans[i].traceHash == h;
          assert all[i] == h;
        }
      }
      SameCardinality(SortedSet(all), hashes);
    }
  }

  ghost predicate HasTrace(m: TraceManifest, h: string) {
    exists k :: 0 <= k < |m.spans| && m.spans[k].traceHash == h
  }

  ghost predicate HasCluster(f: InvestigationFixture, h: string) {
    exists i :: 0 <= i < |f.clusters| && f.clusters[i].traceHash == h
  }

  /** A generated fixture has one cluster for each trace of the manifest, in the
      order of their hashes, and each reports its trace in full: spans, roots,
      errors, statuses and kinds by number, the window of its times, and the
      identifiers and references it carries. */
  lemma FixtureReportsManifest(m: TraceManifest, manifestSha: string, fixtureId: string, maxClusters: int)
    requires Generated(m, manifestSha, fixtureId, maxClusters).Ok?
    ensures var f := Generated(m, manifestSha, fixtureId, maxClusters).value;
            && f.fixtureId == fixtureId && f.source.manifestSha == manifestSha
            && f.source.traceArtifactId == m.artifactId && f.source.traceSourceSha == m.sourceSha
            && f.source.traceCount == |f.clusters| && f.source.spanCount == |m.spans|
            && (forall i, j :: 0 <= i < j < |f.clusters| ==> StringLess(f.clusters[i].traceHash, f.clusters[j].traceHash))
            && (forall h :: HasCluster(f, h) <==> HasTrace(m, h))
            && forall i :: 0 <= i < |f.clusters| ==>
                 && f.clusters[i].clusterId == "trace-" + f.clusters[i].traceHash
                 && f.clusters[i].traceRef == "trace-sha256://" + m.sourceSha + "/traces/" + f.clusters[i].traceHash
                 && CountsReported(m, f.clusters[i]) && WindowReported(m, f.clusters[i]) && IdentifiersReported(m, f.clusters[i])
  {
    hide ParseManifest, SortedSet, Increasing, ClusterIn, CountsReported, WindowReported, IdentifiersReported, IsSafeId, Elements;
    ParsedIsChecked(m);
    CountsAddUp(m);
    var f := Generated(m, manifestSha, fixtureId, maxClusters).value;
    var hashes, all := TraceHashes(m.spans), Map(m.spans, TraceHashOf);
    SortedSetIncreasing(all);
    forall i | 0 <= i < |hashes|
      ensures f.clusters[i].traceHash == hashes[i] && f.clusters[i].clusterId == "trace-" + hashes[i]
      ensures f.clusters[i].traceRef == "trace-sha256://" + m.sourceSha + "/traces/" + hashes[i]
      ensures CountsReported(m, f.clusters[i]) && WindowReported(m, f.clusters[i]) && IdentifiersReported(m, f.clusters[i])
    {
      ClusterFields(m, hashes[i]);
      ClusterNamesTrace(m, hashes[i]);
      CountsAreReported(m, hashes[i]);
      WindowIsReported(m, hashes[i]);
      IdentifiersAreReported(m, hashes[i]);
    }
    HashesIncrease(hashes);
    forall h ensures HasCluster(f, h) <==> HasTrace(m, h) {
      TraceIsListed(m, h);
      if i :| 0 <= i < |hashes| && hashes[i] == h { assert f.clusters[i].traceHash == h; }
    }
  }

  lemma ClusterNamesTrace(m: TraceManifest, traceHash: string)
    ensures ClusterIn(m)(traceHash).traceRef == "trace-sha256://" + m.sourceSha + "/traces/" + traceHash
  {
    hide Sort, Map, Filter, Count, Identifiers, KindNames, StatusCodes, EarliestOf, LatestOf;
    var group := GroupOf(TraceHashOf, m.spans)(traceHash);
    assert ClusterIn(m)(traceHash) == ClusterOf(m.sourceSha, traceHash, group);
    assert ClusterOf(m.sourceSha, traceHash, group).traceRef == TraceRef(m.sourceSha, traceHash);
    assert "trace-sha256://" + m.sourceSha + "/traces/" + traceHash == ("trace-sha256://" + m.sourceSha + "/traces/") + traceHash;
  }

  lemma HashesIncrease(hashes: seq<string>)
    requires Increasing(hashes)
    ensures forall i, j :: 0 <= i < j < |hashes| ==> StringLess(hashes[i], hashes[j])
  {
  }

  lemma TraceIsListed(m: TraceManifest, h: string)
    ensures (exists i :: 0 <= i < |TraceHashes(m.spans)| && TraceHashes(m.spans)[i] == h)
            <==> HasTrace(m, h)
  {
    hide SortedSet, Increasing;
    var hashes, all := TraceHashes(m.spans), Map(m.spans, TraceHashOf);
    SortedSetIncreasing(all);
    if k :| 0 <= k < |m.spans| && m.spans[k].traceHash == h {
      assert all[k] == h;
      assert h in hashes;
    }
    if i :| 0 <= i < |hashes| && hashes[i] == h {
      assert hashes[i] in hashes && h in all;
      var k :| 0 <= k < |all| && all[k] == h;
      assert m.spans[k].traceHash == h;
    }
  }
}
