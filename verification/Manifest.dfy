/** The strict manifest parser of src/causure/trace_manifest.py, and exactly
    which collected manifests it accepts. */
module Manifest {
  import opened Vocabulary
  import opened Sequences
  import opened Sorting
  import opened Tracing
  import opened Collector

  datatype Fault =
    | BadSource | BadRedaction | NoSpan | BadHash | BadReference | OwnParent | BadDecimal | EndFirst | BadDuration
    | BadAttribute | BadInteger | SpanCount | TraceCount | DuplicateIdentity | DuplicateReference | RetainedCount

  predicate AttributesAllowed(span: CollectedSpan) {
    forall k :: k in span.attributes ==> AllowedValue(k, span.attributes[k])
  }

  /** One span of the document, or its first fault. */
  function ParseSpan(span: CollectedSpan, sourceSha: string): Result<CollectedSpan, Fault> {
    if !IsSha256(span.traceHash) || !IsSha256(span.spanHash) then Err(BadHash)
    else if span.evidenceRef != SpanRef(sourceSha, span.spanHash) then Err(BadReference)
    else if span.parentHash.Some? && !IsSha256(span.parentHash.value) then Err(BadHash)
    else if span.parentHash == Some(span.spanHash) then Err(OwnParent)
    else if !ValidTime(span.start) || !ValidTime(span.end) || !ValidTime(span.duration) then Err(BadDecimal)
    else if span.start.Some? && span.end.Some? && span.end.value < span.start.value then Err(EndFirst)
    else if span.duration != Duration(span.start, span.end) then Err(BadDuration)
    else if !AttributesAllowed(span) then Err(BadAttribute)
    else if !ValidEnum(span.kind, 5) || !ValidEnum(span.status, 2) then Err(BadInteger)
    else Ok(span)
  }

  function ParseSpans(spans: seq<CollectedSpan>, sourceSha: string): Result<seq<CollectedSpan>, Fault> {
    if spans == [] then Ok([]) else
    match ParseSpans(spans[..|spans| - 1], sourceSha)
    case Err(e) => Err(e)
    case Ok(parsed) =>
      match ParseSpan(spans[|spans| - 1], sourceSha)
      case Err(e) => Err(e)
      case Ok(span) => Ok(parsed + [span])
  }

  function TraceHashOf(span: CollectedSpan): string { span.traceHash }

  function SpanIdentity(span: CollectedSpan): (string, string) { (span.traceHash, span.spanHash) }

  function ReferenceOf(span: CollectedSpan): string { span.evidenceRef }

  function ParseManifest(m: TraceManifest): Result<TraceManifest, Fault> {
    if !IsSafeId(m.artifactId) || !IsSha256(m.sourceSha) || m.byteCount < 1 || m.traceCount < 1 || m.spanCount < 1
    then Err(BadSource)
    else if m.retained < 0 || m.redacted < 0 || m.dropped < 0 then Err(BadRedaction)
    else if m.spans == [] then Err(NoSpan)
    else match ParseSpans(m.spans, m.sourceSha)
    case Err(e) => Err(e)
    case Ok(spans) =>
      if m.spanCount != |spans| then Err(SpanCount)
      else if m.traceCount != |Elements(Map(spans, TraceHashOf))| then Err(TraceCount)
      else if |Elements(Map(spans, SpanIdentity))| != |spans| then Err(DuplicateIdentity)
      else if |Elements(Map(spans, ReferenceOf))| != |spans| then Err(DuplicateReference)
      else if m.retained != Sum(Map(spans, KeptOf)) then Err(RetainedCount)
      else Ok(m.(spans := spans))
  }

  // ---------------------------------------------------------------- sets of sequences

  lemma ElementsSnoc<T>(s: seq<T>, x: T)
    ensures Elements(s + [x]) == Elements(s) + {x}
    ensures |Elements(s + [x])| == |Elements(s)| + if x in s then 0 else 1
  {
    assert Elements(s + [x]) == Elements(s) + {x};
    if x in s {
      assert Elements(s) + {x} == Elements(s);
    }
  }

  lemma LastRepeats<T, U>(s: seq<T>, t: seq<U>, n: nat)
    requires |s| == |t| == n + 1 && forall i, j :: 0 <= i < j < |s| ==> (s[i] == s[j] <==> t[i] == t[j])
    ensures s[n] in s[..n] <==> t[n] in t[..n]
  {
    if s[n] in s[..n] {
      var i :| 0 <= i < n && s[..n][i] == s[n];
      assert t[..n][i] == t[n];
    }
    if t[n] in t[..n] {
      var i :| 0 <= i < n && t[..n][i] == t[n];
      assert s[..n][i] == s[n];
    }
  }

  /** Two lists with repetitions in the same places have equally many elements. */
  lemma {:induction false} SameRepetitions<T, U>(s: seq<T>, t: seq<U>)
    requires |s| == |t| && forall i, j :: 0 <= i < j < |s| ==> (s[i] == s[j] <==> t[i] == t[j])
    ensures |Elements(s)| == |Elements(t)|
  {
    if s != [] {
      var n := |s| - 1;
      assert s == s[..n] + [s[n]] && t == t[..n] + [t[n]];
      SameRepetitions(s[..n], t[..n]);
      ElementsSnoc(s[..n], s[n]);
      ElementsSnoc(t[..n], t[n]);
      LastRepeats(s, t, n);
    }
  }

  lemma {:induction false} DistinctCardinality<T>(s: seq<T>)
    requires Distinct(s)
    ensures |Elements(s)| == |s|
  {
    if s != [] {
      var n := |s| - 1;
      assert s == s[..n] + [s[n]];
      DistinctCardinality(s[..n]);
      ElementsSnoc(s[..n], s[n]);
    }
  }

  lemma SameSet<T>(s: seq<T>, t: seq<T>)
    requires forall x :: x in s <==> x in t
    ensures Elements(s) == Elements(t)
  {
    forall x ensures x in Elements(s) <==> x in Elements(t) {
      assert x in s <==> x in t;
    }
  }

  lemma SameImages<T, U>(a: seq<T>, b: seq<T>, f: T -> U)
    requires multiset(a) == multiset(b)
    ensures Elements(Map(a, f)) == Elements(Map(b, f))
  {
    MapPermutes(a, b, f);
    SameElements(Map(a, f), Map(b, f));
    SameSet(Map(a, f), Map(b, f));
  }

  // ---------------------------------------------------------------- what collection establishes

  /** SHA-256 gives 64 lower-case hexadecimal digits. */
  ghost predicate DigestsAreHex(lib: Library) {
    forall x :: IsSha256(lib.sha256(x))
  }

  /** The span names itself as its parent. */
  predicate OwnParentSpan(raw: RawSpan) {
    var parent := ParentId(raw.parentSpanId);
    parent.Ok? && parent.value.Some? && parent.value == RequiredHexId(raw.spanId, 16)
  }

  lemma NormalizedIsId(id: string, length: nat)
    requires RequiredHexId(id, length).Some?
    ensures IsId(RequiredHexId(id, length).value, length)
  {
  }

  /** A collected span passes every check of the parser but one. */
  lemma CollectedSpanParses(lib: Library, sourceSha: string, raw: RawSpan)
    requires DigestsAreHex(lib) && InjectiveOnIds(lib) && Collected(lib, sourceSha, raw).Ok?
    ensures var span := Collected(lib, sourceSha, raw).value.span;
            ParseSpan(span, sourceSha) == if OwnParentSpan(raw) then Err(OwnParent) else Ok(span)
  {
    hide RequiredHexId, Filtered, AllowedValue, IsSha256, IsUint64, SpanRef, IsId;
    RecordConserves(lib, sourceSha, raw);
    NormalizedIsId(raw.traceId, 32);
    NormalizedIsId(raw.spanId, 16);
    if ParentId(raw.parentSpanId).value.Some? {
      NormalizedIsId(raw.parentSpanId.value, 16);
    }
    TimesFit(raw.start, raw.end);
  }

  lemma TimesFit(start: Option<int>, end: Option<int>)
    requires ValidTime(start) && ValidTime(end)
    requires start.Some? && end.Some? ==> start.value <= end.value
    ensures ValidTime(Duration(start, end))
  {
  }

  lemma {:induction false} SpansParse(spans: seq<CollectedSpan>, sourceSha: string)
    ensures ParseSpans(spans, sourceSha).Ok? <==> forall i :: 0 <= i < |spans| ==> ParseSpan(spans[i], sourceSha).Ok?
    ensures ParseSpans(spans, sourceSha).Ok? ==> ParseSpans(spans, sourceSha).value == spans
  {
    if spans != [] {
      var n := |spans| - 1;
      hide ParseSpan;
      SpansParse(spans[..n], sourceSha);
      if ParseSpan(spans[n], sourceSha).Ok? { ParsedIsSame(spans[n], sourceSha); }
      assert spans == spans[..n] + [spans[n]];
      if forall i :: 0 <= i < n ==> ParseSpan(spans[..n][i], sourceSha).Ok? {
        assert forall i :: 0 <= i < n ==> spans[i] == spans[..n][i];
      }
    }
  }

  lemma ParsedIsSame(span: CollectedSpan, sourceSha: string)
    requires ParseSpan(span, sourceSha).Ok?
    ensures ParseSpan(span, sourceSha) == Ok(span)
  {
  }

  lemma {:induction false} RecordsParse(lib: Library, sourceSha: string, maxSpans: int, spans: seq<RawSpan>, records: seq<SpanRecord>)
    requires DigestsAreHex(lib) && InjectiveOnIds(lib) && maxSpans >= 0 && Gathered(lib, sourceSha, maxSpans, spans) == Ok(records)
    ensures |records| == |spans|
    ensures forall i :: 0 <= i < |records| ==>
              (ParseSpan(records[i].span, sourceSha).Ok? <==> !OwnParentSpan(spans[i]))
  {
    hide Gathered, ParseSpan, OwnParentSpan, DigestsAreHex, InjectiveOnIds, Collected, Distinct, HasIds;
    GatheredMeans(lib, sourceSha, maxSpans, spans);
    forall i | 0 <= i < |records|
      ensures ParseSpan(records[i].span, sourceSha).Ok? <==> !OwnParentSpan(spans[i])
    {
      CollectedSpanParses(lib, sourceSha, spans[i]);
    }
  }

  lemma SpansAccepted(sourceSha: string, records: seq<SpanRecord>, sorted: seq<CollectedSpan>)
    requires multiset(Map(records, SpanOf)) == multiset(sorted)
    ensures ParseSpans(sorted, sourceSha).Ok? <==>
              forall i :: 0 <= i < |records| ==> ParseSpan(records[i].span, sourceSha).Ok?
    ensures ParseSpans(sorted, sourceSha).Ok? ==> ParseSpans(sorted, sourceSha).value == sorted
  {
    hide ParseSpan;
    SpansParse(sorted, sourceSha);
    SameElements(Map(records, SpanOf), sorted);
    if forall i :: 0 <= i < |records| ==> ParseSpan(records[i].span, sourceSha).Ok? {
      forall j | 0 <= j < |sorted| ensures ParseSpan(sorted[j], sourceSha).Ok? {
        assert sorted[j] in Map(records, SpanOf);
      }
    }
    if forall j :: 0 <= j < |sorted| ==> ParseSpan(sorted[j], sourceSha).Ok? {
      forall i | 0 <= i < |records| ensures ParseSpan(records[i].span, sourceSha).Ok? {
        assert Map(records, SpanOf)[i] in sorted;
      }
    }
  }

  /** The counts and uniqueness conditions hold of every collected manifest. */
  lemma CountsAgree(lib: Library, sourceSha: string, records: seq<SpanRecord>, sorted: seq<CollectedSpan>)
    requires InjectiveOnIds(lib) && Distinct(Map(records, Identity))
    requires forall i :: 0 <= i < |records| ==>
               HasIds(lib, records[i]) && records[i].span.evidenceRef == SpanRef(sourceSha, records[i].span.spanHash)
    requires multiset(Map(records, SpanOf)) == multiset(sorted)
    ensures |sorted| == |records|
    ensures |Elements(Map(records, TraceOf))| == |Elements(Map(sorted, TraceHashOf))|
    ensures |Elements(Map(sorted, SpanIdentity))| == |sorted| && |Elements(Map(sorted, ReferenceOf))| == |sorted|
    ensures Sum(Map(records, KeptCount)) == Sum(Map(sorted, KeptOf))
  {
    var spans, ids := Map(records, SpanOf), Map(records, Identity);
    SameLength(spans, sorted);
    SameImages(spans, sorted, TraceHashOf);
    SameImages(spans, sorted, SpanIdentity);
    SameImages(spans, sorted, ReferenceOf);
    SumPermuted(spans, sorted, KeptOf);
    assert Map(spans, KeptOf) == Map(records, KeptCount);
    SameRepetitions(Map(records, TraceOf), Map(spans, TraceHashOf));
    forall i, j | 0 <= i < j < |records|
      ensures Map(spans, SpanIdentity)[i] != Map(spans, SpanIdentity)[j] && Map(spans, ReferenceOf)[i] != Map(spans, ReferenceOf)[j]
    {
      assert ids[i] != ids[j];
      assert HasIds(lib, records[i]) && HasIds(lib, records[j]);
      SpanRefInjective(sourceSha, spans[i].spanHash, spans[j].spanHash);
    }
    DistinctCardinality(Map(spans, SpanIdentity));
    DistinctCardinality(Map(spans, ReferenceOf));
  }

  lemma SpanRefInjective(sourceSha: string, a: string, b: string)
    ensures SpanRef(sourceSha, a) == SpanRef(sourceSha, b) ==> a == b
  {
    var prefix := "trace-sha256://" + sourceSha + "/spans/";
    assert SpanRef(sourceSha, a)[|prefix|..] == a && SpanRef(sourceSha, b)[|prefix|..] == b;
  }

  /** The strict parser gives a collected manifest back unchanged exactly when
      no span of the export names itself as its parent: the collector does not
      look, the parser does. */
  lemma CollectedManifestParses(lib: Library, source: Source, maxSpans: int, spans: seq<RawSpan>)
    requires DigestsAreHex(lib) && InjectiveOnIds(lib) && IsSha256(source.sha256) && source.byteCount >= 1
    requires Collection(lib, source, maxSpans, spans).Ok?
    ensures var m := Collection(lib, source, maxSpans, spans).value;
            && (ParseManifest(m).Ok? <==> forall i :: 0 <= i < |spans| ==> !OwnParentSpan(spans[i]))
            && (ParseManifest(m).Ok? ==> ParseManifest(m).value == m)
  {
    hide Gathered, Sum, Elements, DigestsAreHex, InjectiveOnIds, ParseSpan, ParseSpans, OwnParentSpan, HasIds, Distinct;
    var m := Collection(lib, source, maxSpans, spans).value;
    var records := Gathered(lib, source.sha256, maxSpans, spans).value;
    GatheredFacts(lib, source.sha256, maxSpans, spans, records);
    RecordsParse(lib, source.sha256, maxSpans, spans, records);
    SpansAccepted(source.sha256, records, m.spans);
    RecordReferences(lib, source.sha256, maxSpans, spans, records);
    CountsAgree(lib, source.sha256, records, m.spans);
    TracesPositive(records);
    CountsPositive(lib, spans, records);
  }

  lemma RecordReferences(lib: Library, sourceSha: string, maxSpans: int, spans: seq<RawSpan>, records: seq<SpanRecord>)
    requires maxSpans >= 0 && Gathered(lib, sourceSha, maxSpans, spans) == Ok(records)
    ensures forall i :: 0 <= i < |records| ==> records[i].span.evidenceRef == SpanRef(sourceSha, records[i].span.spanHash)
  {
    hide Gathered, Filtered, Distinct;
    GatheredMeans(lib, sourceSha, maxSpans, spans);
    forall i | 0 <= i < |records| ensures records[i].span.evidenceRef == SpanRef(sourceSha, records[i].span.spanHash) {
      assert records[i] == RecordOf(lib, sourceSha)(spans[i]);
    }
  }

  lemma TracesPositive(records: seq<SpanRecord>)
    requires records != []
    ensures |Elements(Map(records, TraceOf))| >= 1
  {
    assert Map(records, TraceOf)[0] in Elements(Map(records, TraceOf));
  }

  lemma {:induction false} SumNonNegative(s: seq<int>)
    requires forall i :: 0 <= i < |s| ==> s[i] >= 0
    ensures Sum(s) >= 0
  {
    if s != [] { SumNonNegative(s[..|s| - 1]); }
  }

  lemma CountsPositive(lib: Library, spans: seq<RawSpan>, records: seq<SpanRecord>)
    ensures Sum(Map(records, KeptCount)) >= 0
    ensures Sum(Map(spans, Removed(lib, true))) >= 0 && Sum(Map(spans, Removed(lib, false))) >= 0
  {
    hide Tally;
    SumNonNegative(Map(records, KeptCount));
    SumNonNegative(Map(spans, Removed(lib, true)));
    SumNonNegative(Map(spans, Removed(lib, false)));
  }

  function Repeated(c: char, n: nat): string { seq(n, _ => c) }

  /** A single span whose parent identifier is its own. */
  function SelfParent(): RawSpan {
    RawSpan(Repeated('a', 32), Repeated('b', 16), Some(Repeated('b', 16)), "step", None, None, None, None, [])
  }

  /** Such an export is collected, and its manifest is then refused. */
  lemma SelfParentIsCollectedThenRefused(lib: Library, source: Source)
    requires DigestsAreHex(lib) && InjectiveOnIds(lib) && IsSha256(source.sha256) && source.byteCount >= 1
    requires IsSafeId(source.artifactId)
    ensures Collection(lib, source, 1, [SelfParent()]).Ok?
    ensures ParseManifest(Collection(lib, source, 1, [SelfParent()]).value).Err?
  {
    hide DigestsAreHex, InjectiveOnIds, ParseManifest;
    var raw := SelfParent();
    assert LowerHex('a') == 'a' && LowerHex('b') == 'b';
    assert Map(raw.traceId, LowerHex)[0] == 'a' && Map(raw.spanId, LowerHex)[0] == 'b';
    assert Filtered(lib, []) == Ok(map[]);
    assert Collected(lib, source.sha256, raw).Ok?;
    NothingGathered(lib, source.sha256, 1);
    GatherSnoc(lib, source.sha256, 1, [], raw);
    assert [] + [raw] == [raw];
    CollectedManifestParses(lib, source, 1, [raw]);
    assert OwnParentSpan([raw][0]);
  }
}
