/** Exactly which documents the strict parsers of src/causure/trace_manifest.py
    and src/causure/fixtures.py accept, spelled over their fields. */
module StrictParsers {
  import opened Vocabulary
  import opened Sequences
  import opened Sorting
  import opened Tracing
  import opened Collector
  import opened Manifest
  import opened Fixture

  // ---------------------------------------------------------------- texts, by character code

  predicate Letter(c: char) {
    48 <= c as int <= 57 || 65 <= c as int <= 90 || 97 <= c as int <= 122
  }

  predicate Digest(s: string) {
    |s| == 64 && forall i :: 0 <= i < 64 ==> 48 <= s[i] as int <= 57 || 97 <= s[i] as int <= 102
  }

  predicate SafeText(s: string) {
    && 1 <= |s| <= 128 && Letter(s[0])
    && forall i :: 0 <= i < |s| ==> Letter(s[i]) || s[i] in {'.', '_', ':', '/', '+', '-'}
  }

  predicate SafeId(s: string) {
    3 <= |s| <= 128 && Letter(s[0]) && forall i :: 0 <= i < |s| ==> Letter(s[i]) || s[i] in {'.', '_', '-'}
  }

  lemma PatternsSpelled(s: string)
    ensures IsSha256(s) <==> Digest(s)
    ensures IsSafeText(s) <==> SafeText(s)
    ensures IsSafeId(s) <==> SafeId(s)
  {
  }

  // ---------------------------------------------------------------- manifests

  predicate KindName(name: string) {
    name in {"AGENT", "CHAIN", "EMBEDDING", "EVALUATOR", "GUARDRAIL", "LLM", "PROMPT", "RERANKER", "RETRIEVER", "TOOL"}
  }

  predicate AllowedUnder(key: string, value: Value) {
    if key == "openinference.span.kind" then
      value.Text? && KindName(value.text)
    else if key in SAFE_TEXT_ATTRIBUTES then value.Text? && SafeText(value.text)
    else key in SAFE_NUMERIC_ATTRIBUTES && value.Number? && value.number >= 0.0
  }

  predicate Uint64(n: int) { 0 <= n <= 18_446_744_073_709_551_615 }

  /** The span is well formed and bound to this source, and not its own parent. */
  predicate SpanAccepted(span: CollectedSpan, sourceSha: string) {
    && Digest(span.traceHash) && Digest(span.spanHash)
    && span.evidenceRef == "trace-sha256://" + sourceSha + "/spans/" + span.spanHash
    && (span.parentHash.Some? ==> Digest(span.parentHash.value) && span.parentHash.value != span.spanHash)
    && (span.start.Some? ==> Uint64(span.start.value)) && (span.end.Some? ==> Uint64(span.end.value))
    && (span.duration.Some? <==> span.start.Some? && span.end.Some?)
    && (span.duration.Some? ==> span.duration.value >= 0 && span.start.value + span.duration.value == span.end.value)
    && (span.kind.Some? ==> 0 <= span.kind.value <= 5) && (span.status.Some? ==> 0 <= span.status.value <= 2)
    && forall k :: k in span.attributes ==> AllowedUnder(k, span.attributes[k])
  }

  lemma AllowedAlike(key: string, value: Value)
    ensures AllowedValue(key, value) <==> AllowedUnder(key, value)
  {
    hide IsSafeText, SafeText;
    if value.Text? { PatternsSpelled(value.text); }
  }

  lemma SpanAcceptedExactly(span: CollectedSpan, sourceSha: string)
    ensures ParseSpan(span, sourceSha).Ok? <==> SpanAccepted(span, sourceSha)
  {
    hide IsSha256, Digest, AllowedValue, AllowedUnder;
    PatternsSpelled(span.traceHash);
    PatternsSpelled(span.spanHash);
    if span.parentHash.Some? { PatternsSpelled(span.parentHash.value); }
    forall k | k in span.attributes ensures AllowedValue(k, span.attributes[k]) <==> AllowedUnder(k, span.attributes[k]) {
      AllowedAlike(k, span.attributes[k]);
    }
  }

  function AttributesOf(span: CollectedSpan): int { |span.attributes| }

  /** Spans of one source, all different, with totals that fit them. */
  ghost predicate ManifestAccepted(m: TraceManifest) {
    && SafeId(m.artifactId) && Digest(m.sourceSha) && m.byteCount >= 1 && m.redacted >= 0 && m.dropped >= 0
    && m.spanCount == |m.spans| >= 1 && (forall i :: 0 <= i < |m.spans| ==> SpanAccepted(m.spans[i], m.sourceSha))
    && (forall i, j :: 0 <= i < j < |m.spans| ==> m.spans[i].spanHash != m.spans[j].spanHash)
    && m.traceCount == |set i | 0 <= i < |m.spans| :: m.spans[i].traceHash|
    && m.retained == Sum(Map(m.spans, AttributesOf))
  }

  /** The parser's two uniqueness rules come down to one: different span hashes. */
  lemma UniqueSpans(spans: seq<CollectedSpan>, sourceSha: string)
    requires forall i :: 0 <= i < |spans| ==> spans[i].evidenceRef == SpanRef(sourceSha, spans[i].spanHash)
    ensures |Elements(Map(spans, SpanIdentity))| == |spans| && |Elements(Map(spans, ReferenceOf))| == |spans| <==>
              forall i, j :: 0 <= i < j < |spans| ==> spans[i].spanHash != spans[j].spanHash
  {
    var ids, refs := Map(spans, SpanIdentity), Map(spans, ReferenceOf);
    forall i, j | 0 <= i < j < |spans| ensures refs[i] == refs[j] <==> spans[i].spanHash == spans[j].spanHash {
      SpanRefInjective(sourceSha, spans[i].spanHash, spans[j].spanHash);
    }
    if |Elements(refs)| == |spans| { CardinalityDistinct(refs); }
    if forall i, j :: 0 <= i < j < |spans| ==> spans[i].spanHash != spans[j].spanHash {
      DistinctCardinality(refs);
      assert forall i, j :: 0 <= i < j < |spans| ==> ids[i] != ids[j];
      DistinctCardinality(ids);
    }
  }

  lemma TracesListed(spans: seq<CollectedSpan>)
    ensures Elements(Map(spans, TraceHashOf)) == set i | 0 <= i < |spans| :: spans[i].traceHash
  {
    var all := Map(spans, TraceHashOf);
    forall h ensures h in Elements(all) <==> h in set i | 0 <= i < |spans| :: spans[i].traceHash {
      if i :| 0 <= i < |all| && all[i] == h { assert spans[i].traceHash == h; }
      if i :| 0 <= i < |spans| && spans[i].traceHash == h { assert all[i] == h; }
    }
  }

  /** The manifest parser accepts exactly these documents, and gives them back. */
  lemma ManifestAcceptedExactly(m: TraceManifest)
    ensures ParseManifest(m).Ok? <==> ManifestAccepted(m)
    ensures ParseManifest(m).Ok? ==> ParseManifest(m).value == m
  {
    hide ParseSpan, SpanAccepted, Sum, Elements, IsSafeId, SafeId, IsSha256, Digest;
    PatternsSpelled(m.artifactId);
    PatternsSpelled(m.sourceSha);
    SpansParse(m.spans, m.sourceSha);
    forall i | 0 <= i < |m.spans| ensures ParseSpan(m.spans[i], m.sourceSha).Ok? <==> SpanAccepted(m.spans[i], m.sourceSha) {
      SpanAcceptedExactly(m.spans[i], m.sourceSha);
    }
    TracesListed(m.spans);
    TotalsFit(m);
    if forall i :: 0 <= i < |m.spans| ==> SpanAccepted(m.spans[i], m.sourceSha) {
      ReferencesBound(m);
      UniqueSpans(m.spans, m.sourceSha);
    }
  }

  lemma ReferencesBound(m: TraceManifest)
    requires forall i :: 0 <= i < |m.spans| ==> SpanAccepted(m.spans[i], m.sourceSha)
    ensures forall i :: 0 <= i < |m.spans| ==> m.spans[i].evidenceRef == SpanRef(m.sourceSha, m.spans[i].spanHash)
  {
  }

  lemma TotalsFit(m: TraceManifest)
    ensures Sum(Map(m.spans, KeptOf)) == Sum(Map(m.spans, AttributesOf)) >= 0
    ensures m.spans != [] ==> |Elements(Map(m.spans, TraceHashOf))| >= 1
  {
    assert Map(m.spans, KeptOf) == Map(m.spans, AttributesOf);
    SumNonNegative(Map(m.spans, AttributesOf));
    if m.spans != [] { assert Map(m.spans, TraceHashOf)[0] in Elements(Map(m.spans, TraceHashOf)); }
  }

  // ---------------------------------------------------------------- fixtures

  lemma SortedSetsIncrease(s: seq<string>)
    ensures s == SortedSet(s) <==> Increasing(s)
  {
    hide SortedSet, Increasing;
    SortedSetIncreasing(s);
    if Increasing(s) { IncreasingIsSortedSet(s); }
  }

  /** Kinds in order, each with a positive count, no more together than spans. */
  ghost predicate KindsFit(counts: seq<NamedCount>, spanCount: int) {
    && (forall i :: 0 <= i < |counts| ==> KindName(counts[i].name) && counts[i].count >= 1)
    && (forall i, j :: 0 <= i < j < |counts| ==> StringLess(counts[i].name, counts[j].name))
    && Sum(Map(counts, (n: NamedCount) => n.count)) <= spanCount
  }

  ghost predicate StatusesFit(counts: seq<StatusCount>, spanCount: int) {
    && (forall i :: 0 <= i < |counts| ==> counts[i].code in {0, 1, 2} && counts[i].count >= 1)
    && (forall i, j :: 0 <= i < j < |counts| ==> counts[i].code < counts[j].code)
    && Sum(Map(counts, (n: StatusCount) => n.count)) <= spanCount
  }

  lemma {:induction false} PartAtMostSum(s: seq<int>, i: nat)
    requires i < |s| && forall k :: 0 <= k < |s| ==> s[k] >= 0
    ensures s[i] <= Sum(s)
  {
    var n := |s| - 1;
    if i < n {
      PartAtMostSum(s[..n], i);
    } else {
      SumNonNegative(s[..n]);
    }
  }

  lemma KindsAcceptedExactly(counts: seq<NamedCount>, spanCount: int)
    ensures NamedCountsAccepted(counts, spanCount) <==> KindsFit(counts, spanCount)
  {
    hide Sum, SortedSet, StringLess;
    var names, totals := Map(counts, NameOf), Map(counts, CountOfNamed);
    assert totals == Map(counts, (n: NamedCount) => n.count);
    SortedSetsIncrease(names);
    assert Increasing(names) <==> forall i, j :: 0 <= i < j < |counts| ==> StringLess(counts[i].name, counts[j].name);
    if KindsFit(counts, spanCount) {
      forall i | 0 <= i < |counts| ensures counts[i].count <= spanCount { PartAtMostSum(totals, i); }
      IncreasingDistinct(names);
      FewKinds(names);
    }
  }

  lemma {:induction false} CodesCount(counts: seq<StatusCount>, i: nat)
    requires i < |counts| && counts[0].code >= 0 && forall j, k :: 0 <= j < k < |counts| ==> counts[j].code < counts[k].code
    ensures i <= counts[i].code
  {
    if i > 0 { CodesCount(counts, i - 1); }
  }

  lemma StatusesAcceptedExactly(counts: seq<StatusCount>, spanCount: int)
    ensures StatusCountsAccepted(counts, spanCount) <==> StatusesFit(counts, spanCount)
  {
    hide Sum;
    var totals := Map(counts, CountOfStatus);
    assert totals == Map(counts, (n: StatusCount) => n.count);
    if StatusesFit(counts, spanCount) {
      forall i | 0 <= i < |counts| ensures counts[i].count <= spanCount { PartAtMostSum(totals, i); }
      if counts != [] { CodesCount(counts, |counts| - 1); }
    }
  }

  /** So many spans have status code 2. */
  ghost predicate ErrorsCounted(counts: seq<StatusCount>, errors: int) {
    if exists i :: 0 <= i < |counts| && counts[i].code == 2 then StatusCount(2, errors) in counts else errors == 0
  }

  lemma ErrorsAreCounted(counts: seq<StatusCount>, errors: int)
    requires forall i, j :: 0 <= i < j < |counts| ==> counts[i].code < counts[j].code
    ensures StatusErrors(counts) == errors <==> ErrorsCounted(counts, errors)
  {
    hide StatusErrors;
    if i :| 0 <= i < |counts| && counts[i].code == 2 {
      ErrorEntry(counts, i);
      if StatusCount(2, errors) in counts {
        var k :| 0 <= k < |counts| && counts[k] == StatusCount(2, errors);
        assert k == i;
      }
      if StatusErrors(counts) == errors { assert counts[i] == StatusCount(2, errors); }
    } else {
      NoErrorEntry(counts);
    }
  }

  ghost predicate TextsFit(texts: seq<string>) {
    |texts| <= 10_000 && Increasing(texts) && forall i :: 0 <= i < |texts| ==> SafeText(texts[i])
  }

  /** The reference names a span of this source. */
  ghost predicate RefersTo(sourceSha: string, reference: string) {
    exists spanHash :: Digest(spanHash) && reference == "trace-sha256://" + sourceSha + "/spans/" + spanHash
  }

  ghost predicate ClusterAccepted(c: Cluster, sourceSha: string) {
    && Digest(c.traceHash) && c.clusterId == "trace-" + c.traceHash
    && c.traceRef == "trace-sha256://" + sourceSha + "/traces/" + c.traceHash
    && c.spanCount == |c.spanRefs| >= 1 && Increasing(c.spanRefs)
    && (forall i :: 0 <= i < |c.spanRefs| ==> RefersTo(sourceSha, c.spanRefs[i]))
    && 0 <= c.rootSpanCount <= c.spanCount
    && KindsFit(c.kindCounts, c.spanCount) && StatusesFit(c.statusCounts, c.spanCount)
    && ErrorsCounted(c.statusCounts, c.errorSpanCount)
    && (c.earliest.Some? ==> Uint64(c.earliest.value)) && (c.latest.Some? ==> Uint64(c.latest.value))
    && (c.duration.Some? <==> c.earliest.Some? && c.latest.Some? && c.earliest.value <= c.latest.value)
    && (c.duration.Some? ==> c.earliest.value + c.duration.value == c.latest.value)
    && TextsFit(c.models) && TextsFit(c.providers)
  }

  lemma ReferenceSpelled(sourceSha: string, reference: string)
    ensures IsSpanRef(sourceSha, reference) <==> RefersTo(sourceSha, reference)
  {
    hide IsSha256, Digest;
    var prefix := "trace-sha256://" + sourceSha + "/spans/";
    if prefix <= reference {
      var spanHash := reference[|prefix|..];
      PatternsSpelled(spanHash);
      assert reference == prefix + spanHash;
    }
    if spanHash :| Digest(spanHash) && reference == prefix + spanHash {
      assert reference[|prefix|..] == spanHash;
      PatternsSpelled(spanHash);
    }
  }

  lemma ReferencesAcceptedExactly(sourceSha: string, references: seq<string>, spanCount: int)
    ensures ReferencesAccepted(sourceSha, references, spanCount) <==>
              && spanCount == |references| >= 1 && Increasing(references)
              && forall i :: 0 <= i < |references| ==> RefersTo(sourceSha, references[i])
  {
    hide IsSpanRef, RefersTo, SortedSet, Increasing;
    SortedSetsIncrease(references);
    forall i | 0 <= i < |references| ensures IsSpanRef(sourceSha, references[i]) <==> RefersTo(sourceSha, references[i]) {
      ReferenceSpelled(sourceSha, references[i]);
    }
  }

  lemma TextsAcceptedExactly(texts: seq<string>)
    ensures IdentifiersAccepted(texts) <==> TextsFit(texts)
  {
    hide IsSafeText, SafeText, SortedSet, Increasing;
    SortedSetsIncrease(texts);
    forall i | 0 <= i < |texts| ensures IsSafeText(texts[i]) <==> SafeText(texts[i]) { PatternsSpelled(texts[i]); }
  }

  lemma ErrorsFitSpans(counts: seq<StatusCount>, errors: int, spanCount: int)
    requires StatusCountsAccepted(counts, spanCount) && ErrorsCounted(counts, errors) && spanCount >= 1
    ensures 0 <= errors <= spanCount
  {
  }

  lemma ClusterAcceptedExactly(c: Cluster, source: FixtureSource)
    ensures ParseCluster(c, source).Ok? <==> ClusterAccepted(c, source.traceSourceSha)
    ensures ParseCluster(c, source).Ok? ==> ParseCluster(c, source).value == c
  {
    hide IsSha256, Digest, ReferencesAccepted, NamedCountsAccepted, KindsFit, StatusCountsAccepted, StatusesFit, StatusErrors,
      ErrorsCounted, IdentifiersAccepted, TextsFit, Increasing, RefersTo;
    PatternsSpelled(c.traceHash);
    TraceRefSpelled(source.traceSourceSha, c.traceHash);
    ReferencesAcceptedExactly(source.traceSourceSha, c.spanRefs, c.spanCount);
    KindsAcceptedExactly(c.kindCounts, c.spanCount);
    StatusesAcceptedExactly(c.statusCounts, c.spanCount);
    TextsAcceptedExactly(c.models);
    TextsAcceptedExactly(c.providers);
    if StatusCountsAccepted(c.statusCounts, c.spanCount) {
      StatusesAscend(c.statusCounts, c.spanCount);
      ErrorsAreCounted(c.statusCounts, c.errorSpanCount);
      if c.spanCount >= 1 && ErrorsCounted(c.statusCounts, c.errorSpanCount) {
        ErrorsFitSpans(c.statusCounts, c.errorSpanCount, c.spanCount);
      }
    }
  }

  lemma StatusesAscend(counts: seq<StatusCount>, spanCount: int)
    requires StatusCountsAccepted(counts, spanCount)
    ensures forall i, j :: 0 <= i < j < |counts| ==> counts[i].code < counts[j].code
  {
  }

  lemma TraceRefSpelled(sourceSha: string, traceHash: string)
    ensures TraceRef(sourceSha, traceHash) == "trace-sha256://" + sourceSha + "/traces/" + traceHash
  {
  }

  /** Clusters of one manifest in the order of their traces, with totals that fit. */
  ghost predicate FixtureAccepted(f: InvestigationFixture) {
    && SafeId(f.fixtureId) && Digest(f.source.manifestSha) && SafeId(f.source.traceArtifactId) && Digest(f.source.traceSourceSha)
    && f.source.traceCount == |f.clusters| && 1 <= |f.clusters| <= 10_000
    && (forall i :: 0 <= i < |f.clusters| ==> ClusterAccepted(f.clusters[i], f.source.traceSourceSha))
    && (forall i, j :: 0 <= i < j < |f.clusters| ==> StringLess(f.clusters[i].traceHash, f.clusters[j].traceHash))
    && f.source.spanCount == Sum(Map(f.clusters, (c: Cluster) => c.spanCount))
  }

  lemma {:induction false} ClustersAccepted(clusters: seq<Cluster>, source: FixtureSource)
    ensures ParseClusters(clusters, source).Ok? <==> forall i :: 0 <= i < |clusters| ==> ClusterAccepted(clusters[i], source.traceSourceSha)
    ensures ParseClusters(clusters, source).Ok? ==> ParseClusters(clusters, source).value == clusters
  {
    hide ParseCluster, ClusterAccepted;
    if clusters != [] {
      var n := |clusters| - 1;
      ClustersAccepted(clusters[..n], source);
      ClusterAcceptedExactly(clusters[n], source);
      assert clusters == clusters[..n] + [clusters[n]];
      assert forall i :: 0 <= i < n ==> clusters[..n][i] == clusters[i];
    }
  }

  lemma IdsAscend(clusters: seq<Cluster>)
    requires forall i :: 0 <= i < |clusters| ==> clusters[i].clusterId == "trace-" + clusters[i].traceHash
    ensures Increasing(Map(clusters, ClusterIdOf)) <==>
              forall i, j :: 0 <= i < j < |clusters| ==> StringLess(clusters[i].traceHash, clusters[j].traceHash)
  {
    hide StringLe;
    var ids := Map(clusters, ClusterIdOf);
    forall i, j | 0 <= i < j < |clusters|
      ensures StringLess(ids[i], ids[j]) <==> StringLess(clusters[i].traceHash, clusters[j].traceHash)
    {
      StringPrefix("trace-", clusters[i].traceHash, clusters[j].traceHash);
      assert (ids[i] == ids[j]) == (clusters[i].traceHash == clusters[j].traceHash) by {
        assert ids[i][6..] == clusters[i].traceHash && ids[j][6..] == clusters[j].traceHash;
      }
    }
  }

  lemma SpansAddUp(clusters: seq<Cluster>)
    requires clusters != [] && forall i :: 0 <= i < |clusters| ==> clusters[i].spanCount >= 1
    ensures Sum(Map(clusters, SpanCountOf)) == Sum(Map(clusters, (c: Cluster) => c.spanCount)) >= 1
  {
    assert Map(clusters, SpanCountOf) == Map(clusters, (c: Cluster) => c.spanCount);
    PartAtMostSum(Map(clusters, SpanCountOf), 0);
  }

  /** The fixture parser accepts exactly these documents, and gives them back. */
  lemma FixtureAcceptedExactly(f: InvestigationFixture)
    ensures ParseFixture(f).Ok? <==> FixtureAccepted(f)
    ensures ParseFixture(f).Ok? ==> ParseFixture(f).value == f
  {
    hide ParseClusters, SortedSet, Sum, Increasing, IsSafeId, SafeId, IsSha256, Digest, ClusterAccepted, StringLess;
    PatternsSpelled(f.fixtureId);
    PatternsSpelled(f.source.manifestSha);
    PatternsSpelled(f.source.traceArtifactId);
    PatternsSpelled(f.source.traceSourceSha);
    ClustersAccepted(f.clusters, f.source);
    if f.clusters != [] && forall i :: 0 <= i < |f.clusters| ==> ClusterAccepted(f.clusters[i], f.source.traceSourceSha) {
      ClustersBound(f);
      SortedSetsIncrease(Map(f.clusters, ClusterIdOf));
      IdsAscend(f.clusters);
      SpansAddUp(f.clusters);
    }
  }

  lemma ClustersBound(f: InvestigationFixture)
    requires forall i :: 0 <= i < |f.clusters| ==> ClusterAccepted(f.clusters[i], f.source.traceSourceSha)
    ensures forall i :: 0 <= i < |f.clusters| ==>
              f.clusters[i].clusterId == "trace-" + f.clusters[i].traceHash && f.clusters[i].spanCount >= 1
  {
  }
}
