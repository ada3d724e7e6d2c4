/** What a manifest of src/causure/collector.py says of the spans it was
    collected from, over the spans themselves. */
module SpanRecords {
  import opened Vocabulary
  import opened Sequences
  import opened Sorting
  import opened Tracing
  import opened Collector

  // ---------------------------------------------------------------- identifiers

  /** d is the lower-case form of the hexadecimal digit c. */
  predicate SameDigit(c: char, d: char) {
    if '0' <= d <= '9' then c == d else 'a' <= d <= 'f' && (c == d || c as int + 32 == d as int)
  }

  /** id is raw in lower case: so many hexadecimal digits, not all zero. */
  ghost predicate Normalizes(raw: string, id: string, length: nat) {
    && |raw| == |id| == length && (forall i :: 0 <= i < length ==> SameDigit(raw[i], id[i]))
    && exists i :: 0 <= i < length && id[i] != '0'
  }

  lemma NormalIds(raw: string, length: nat)
    ensures RequiredHexId(raw, length).Some? ==> Normalizes(raw, RequiredHexId(raw, length).value, length)
    ensures forall id :: Normalizes(raw, id, length) ==> RequiredHexId(raw, length) == Some(id)
  {
    forall id | Normalizes(raw, id, length) ensures RequiredHexId(raw, length) == Some(id) {
      forall i | 0 <= i < length ensures IsHex(raw[i]) && LowerHex(raw[i]) == id[i] {
        assert SameDigit(raw[i], id[i]);
      }
      assert Map(raw, LowerHex) == id;
    }
  }

  predicate HasParent(raw: RawSpan) { raw.parentSpanId.Some? && raw.parentSpanId.value != "" }

  // ---------------------------------------------------------------- one span

  /** Everything the collector asks of a span. */
  ghost predicate Admissible(raw: RawSpan) {
    && (exists id :: Normalizes(raw.traceId, id, 32)) && (exists id :: Normalizes(raw.spanId, id, 16))
    && (HasParent(raw) ==> exists id :: Normalizes(raw.parentSpanId.value, id, 16))
    && raw.name != ""
    && (raw.start.Some? ==> 0 <= raw.start.value <= 0xFFFF_FFFF_FFFF_FFFF)
    && (raw.end.Some? ==> 0 <= raw.end.value <= 0xFFFF_FFFF_FFFF_FFFF)
    && (raw.start.Some? && raw.end.Some? ==> raw.start.value <= raw.end.value)
    && (raw.status.Some? ==> 0 <= raw.status.value <= 2) && (raw.kind.Some? ==> 0 <= raw.kind.value <= 5)
    && (forall a :: a in raw.attributes ==> 1 <= |a.key| <= 256)
    && forall i, j :: 0 <= i < j < |raw.attributes| ==> raw.attributes[i].key != raw.attributes[j].key
  }

  lemma GoodMeansDistinct(attributes: seq<RawAttribute>)
    ensures GoodAttributes(attributes) <==>
              && (forall a :: a in attributes ==> 1 <= |a.key| <= 256)
              && forall i, j :: 0 <= i < j < |attributes| ==> attributes[i].key != attributes[j].key
  {
    var keys := Map(attributes, KeyOf);
    assert forall i :: 0 <= i < |attributes| ==> keys[i] == attributes[i].key;
    assert forall i :: 0 <= i < |attributes| ==> attributes[i] in attributes;
  }

  lemma CollectedExactly(lib: Library, sourceSha: string, raw: RawSpan)
    ensures Collected(lib, sourceSha, raw).Ok? <==> Admissible(raw)
  {
    hide RequiredHexId, Filtered, Normalizes, GoodAttributes;
    NormalIds(raw.traceId, 32);
    NormalIds(raw.spanId, 16);
    if HasParent(raw) { NormalIds(raw.parentSpanId.value, 16); }
    FilteredMeans(lib, raw.attributes);
    GoodMeansDistinct(raw.attributes);
  }

  /** The attributes kept are those whose normal value is allowed under their key. */
  ghost predicate KeepsAllowed(lib: Library, raw: RawSpan, kept: map<string, Value>) {
    && (forall a :: a in raw.attributes ==>
          && (a.key in kept <==> AllowedValue(a.key, Normalized(lib, a)))
          && (a.key in kept ==> kept[a.key] == Normalized(lib, a)))
    && forall k :: k in kept ==> exists a :: a in raw.attributes && a.key == k
  }

  /** The span is the record of the raw one under these normal identifiers. */
  ghost predicate Records(lib: Library, sourceSha: string, raw: RawSpan, span: CollectedSpan, traceId: string, spanId: string) {
    && Normalizes(raw.traceId, traceId, 32) && Normalizes(raw.spanId, spanId, 16)
    && span.traceHash == lib.sha256("causure:trace-id:" + traceId)
    && span.spanHash == lib.sha256("causure:span-id:" + traceId + ":" + spanId)
    && span.evidenceRef == "trace-sha256://" + sourceSha + "/spans/" + span.spanHash
    && (!HasParent(raw) ==> span.parentHash == None)
    && (HasParent(raw) ==> span.parentHash.Some?)
    && (HasParent(raw) ==> forall id :: Normalizes(raw.parentSpanId.value, id, 16) ==>
          span.parentHash == Some(lib.sha256("causure:span-id:" + traceId + ":" + id)))
    && span.start == raw.start && span.end == raw.end && span.kind == raw.kind && span.status == raw.status
    && (span.duration.Some? <==> raw.start.Some? && raw.end.Some?)
    && (span.duration.Some? ==> raw.start.value + span.duration.value == raw.end.value)
    && KeepsAllowed(lib, raw, span.attributes)
  }

  lemma FilteredKeepsAllowed(lib: Library, raw: RawSpan)
    requires Filtered(lib, raw.attributes).Ok?
    ensures KeepsAllowed(lib, raw, Filtered(lib, raw.attributes).value)
  {
    hide Filtered, AllowedValue, Normalized, Dispose;
    var kept := Filtered(lib, raw.attributes).value;
    FilteredMeans(lib, raw.attributes);
    forall a | a in raw.attributes
      ensures a.key in kept <==> AllowedValue(a.key, Normalized(lib, a))
      ensures a.key in kept ==> kept[a.key] == Normalized(lib, a)
    {
      var i :| 0 <= i < |raw.attributes| && raw.attributes[i] == a;
      assert Keeps(lib, kept, raw.attributes[i]);
      RetainedIffAllowed(lib, a);
    }
    forall k | k in kept ensures exists a :: a in raw.attributes && a.key == k {
      var i :| 0 <= i < |raw.attributes| && raw.attributes[i].key == k;
      assert raw.attributes[i] in raw.attributes;
    }
  }

  lemma CollectedRecords(lib: Library, sourceSha: string, raw: RawSpan)
    requires Collected(lib, sourceSha, raw).Ok?
    ensures var r := Collected(lib, sourceSha, raw).value; Records(lib, sourceSha, raw, r.span, r.traceId, r.spanId)
  {
    hide RequiredHexId, Filtered, Normalizes, KeepsAllowed, IsUint64;
    NormalIds(raw.traceId, 32);
    NormalIds(raw.spanId, 16);
    if HasParent(raw) { NormalIds(raw.parentSpanId.value, 16); }
    FilteredKeepsAllowed(lib, raw);
  }

  // ---------------------------------------------------------------- what is redacted

  /** The fragment occurs somewhere in the text. */
  ghost predicate OccursIn(fragment: string, s: string) {
    exists before: string, after: string :: s == before + fragment + after
  }

  lemma OccurrenceFits(s: string, fragment: string)
    ensures OccursIn(fragment, s) ==> |fragment| <= |s|
  {
  }

  lemma {:induction false} ContainsMeans(s: string, fragment: string)
    ensures Contains(s, fragment) <==> OccursIn(fragment, s)
  {
    OccurrenceFits(s, fragment);
    if fragment <= s {
      assert s == "" + fragment + s[|fragment|..];
    } else if s != "" {
      ContainsMeans(s[1..], fragment);
      if OccursIn(fragment, s[1..]) {
        var before, after :| s[1..] == before + fragment + after;
        assert s == ([s[0]] + before) + fragment + after;
      }
      if OccursIn(fragment, s) {
        var before, after :| s == before + fragment + after;
        assert s[|before|..] == fragment + after;
        assert s[1..] == before[1..] + fragment + after;
      }
    }
  }

  /** A key that is on an allow-list, or has a sensitive fragment in it. */
  ghost predicate Guarded(lib: Library, key: string) {
    || key in SAFE_TEXT_ATTRIBUTES || key in SAFE_NUMERIC_ATTRIBUTES
    || exists fragment :: fragment in SENSITIVE_FRAGMENTS && OccursIn(fragment, lib.casefold(key))
  }

  ghost predicate IsRedacted(lib: Library, a: RawAttribute) {
    !AllowedValue(a.key, Normalized(lib, a)) && Guarded(lib, a.key)
  }

  ghost predicate IsDropped(lib: Library, a: RawAttribute) {
    !AllowedValue(a.key, Normalized(lib, a)) && !Guarded(lib, a.key)
  }

  lemma SensitiveMeans(lib: Library, key: string)
    ensures IsSensitiveKey(lib, key) <==> exists fragment :: fragment in SENSITIVE_FRAGMENTS && OccursIn(fragment, lib.casefold(key))
  {
    hide Contains, OccursIn;
    forall fragment ensures Contains(lib.casefold(key), fragment) <==> OccursIn(fragment, lib.casefold(key)) {
      ContainsMeans(lib.casefold(key), fragment);
    }
    if fragment :| fragment in SENSITIVE_FRAGMENTS && OccursIn(fragment, lib.casefold(key)) {
      var i :| 0 <= i < |SENSITIVE_FRAGMENTS| && SENSITIVE_FRAGMENTS[i] == fragment;
    }
  }

  lemma DispositionMeans(lib: Library, a: RawAttribute)
    ensures Dispose(lib, a) == Redacted <==> IsRedacted(lib, a)
    ensures Dispose(lib, a) == Dropped <==> IsDropped(lib, a)
  {
    hide AllowedValue, Normalized, IsSensitiveKey, OccursIn, Dispose;
    RetainedIffAllowed(lib, a);
    SensitiveMeans(lib, a.key);
  }

  /** How many attributes of the span are redacted; dropped. */
  ghost function RedactedIn(lib: Library): RawSpan -> int {
    (raw: RawSpan) => |set i | 0 <= i < |raw.attributes| && IsRedacted(lib, raw.attributes[i])|
  }

  ghost function DroppedIn(lib: Library): RawSpan -> int {
    (raw: RawSpan) => |set i | 0 <= i < |raw.attributes| && IsDropped(lib, raw.attributes[i])|
  }

  lemma TalliesMean(lib: Library, raw: RawSpan)
    ensures Removed(lib, true)(raw) == RedactedIn(lib)(raw) && Removed(lib, false)(raw) == DroppedIn(lib)(raw)
  {
    hide Count, Dispose, IsRedacted, IsDropped;
    forall a ensures IsRemoved(lib, true)(a) <==> IsRedacted(lib, a) { DispositionMeans(lib, a); }
    forall a ensures IsRemoved(lib, false)(a) <==> IsDropped(lib, a) { DispositionMeans(lib, a); }
    CountIsCardinality(raw.attributes, IsRemoved(lib, true));
    CountIsCardinality(raw.attributes, IsRemoved(lib, false));
    assert Indices(raw.attributes, IsRemoved(lib, true)) == set i | 0 <= i < |raw.attributes| && IsRedacted(lib, raw.attributes[i]);
    assert Indices(raw.attributes, IsRemoved(lib, false)) == set i | 0 <= i < |raw.attributes| && IsDropped(lib, raw.attributes[i]);
  }

  // ---------------------------------------------------------------- the whole manifest

  /** Two spans of the export with the same trace and span, up to the case of the digits. */
  ghost predicate SameSpan(a: RawSpan, b: RawSpan) {
    exists t, s ::
      Normalizes(a.traceId, t, 32) && Normalizes(b.traceId, t, 32) && Normalizes(a.spanId, s, 16) && Normalizes(b.spanId, s, 16)
  }

  lemma SameIdentity(lib: Library, sourceSha: string, a: RawSpan, b: RawSpan)
    requires Collected(lib, sourceSha, a).Ok? && Collected(lib, sourceSha, b).Ok?
    ensures Identity(RecordOf(lib, sourceSha)(a)) == Identity(RecordOf(lib, sourceSha)(b)) <==> SameSpan(a, b)
  {
    hide RequiredHexId, Filtered, Normalizes, KeepsAllowed, IsUint64;
    NormalIds(a.traceId, 32);
    NormalIds(b.traceId, 32);
    NormalIds(a.spanId, 16);
    NormalIds(b.spanId, 16);
  }

  /** Collection succeeds exactly for a safe identifier, a limit of 1 to 100,000,
      and at least one and at most so many admissible spans, none repeated. */
  lemma CollectionIsExact(lib: Library, source: Source, maxSpans: int, spans: seq<RawSpan>)
    ensures Collection(lib, source, maxSpans, spans).Ok? <==>
              && IsSafeId(source.artifactId) && 1 <= maxSpans <= 100_000 && 1 <= |spans| <= maxSpans
              && (forall i :: 0 <= i < |spans| ==> Admissible(spans[i]))
              && forall i, j :: 0 <= i < j < |spans| ==> !SameSpan(spans[i], spans[j])
  {
    hide Gathered, Collected, Admissible, SameSpan, IsSafeId, ManifestOf;
    if 1 <= maxSpans {
      GatheredMeans(lib, source.sha256, maxSpans, spans);
      forall i | 0 <= i < |spans| ensures Collected(lib, source.sha256, spans[i]).Ok? <==> Admissible(spans[i]) {
        CollectedExactly(lib, source.sha256, spans[i]);
      }
      if AllGood(lib, source.sha256, spans) {
        var ids := Map(Map(spans, RecordOf(lib, source.sha256)), Identity);
        forall i, j | 0 <= i < j < |spans| ensures ids[i] == ids[j] <==> SameSpan(spans[i], spans[j]) {
          SameIdentity(lib, source.sha256, spans[i], spans[j]);
        }
      }
    }
  }

  /** One record for each span, in order. */
  ghost predicate RecordsEach(lib: Library, sourceSha: string, spans: seq<RawSpan>, records: seq<CollectedSpan>) {
    && |records| == |spans|
    && forall i :: 0 <= i < |spans| ==> IsRecordOf(lib, sourceSha, spans[i], records[i])
  }

  ghost predicate IsRecordOf(lib: Library, sourceSha: string, raw: RawSpan, span: CollectedSpan) {
    exists traceId, spanId :: Records(lib, sourceSha, raw, span, traceId, spanId)
  }

  lemma GatheredRecordsEach(lib: Library, sourceSha: string, spans: seq<RawSpan>)
    requires AllGood(lib, sourceSha, spans)
    ensures RecordsEach(lib, sourceSha, spans, Map(Map(spans, RecordOf(lib, sourceSha)), SpanOf))
  {
    hide Collected, Records;
    var records := Map(spans, RecordOf(lib, sourceSha));
    var listed := Map(records, SpanOf);
    forall i | 0 <= i < |spans| ensures IsRecordOf(lib, sourceSha, spans[i], listed[i]) {
      CollectedRecords(lib, sourceSha, spans[i]);
      assert records[i] == Collected(lib, sourceSha, spans[i]).value && listed[i] == records[i].span;
    }
  }

  lemma RemovedAddUp(lib: Library, spans: seq<RawSpan>)
    ensures Sum(Map(spans, Removed(lib, true))) == Sum(Map(spans, RedactedIn(lib)))
    ensures Sum(Map(spans, Removed(lib, false))) == Sum(Map(spans, DroppedIn(lib)))
  {
    hide RedactedIn, DroppedIn, Removed, Sum;
    forall i | 0 <= i < |spans|
      ensures Removed(lib, true)(spans[i]) == RedactedIn(lib)(spans[i]) && Removed(lib, false)(spans[i]) == DroppedIn(lib)(spans[i])
    {
      TalliesMean(lib, spans[i]);
    }
    assert Map(spans, Removed(lib, true)) == Map(spans, RedactedIn(lib));
    assert Map(spans, Removed(lib, false)) == Map(spans, DroppedIn(lib));
  }

  /** The normal forms of the trace identifiers of the export. */
  ghost function TraceIds(spans: seq<RawSpan>): set<string> {
    set i | 0 <= i < |spans| && RequiredHexId(spans[i].traceId, 32).Some? :: RequiredHexId(spans[i].traceId, 32).value
  }

  lemma TracesCounted(lib: Library, sourceSha: string, spans: seq<RawSpan>)
    requires AllGood(lib, sourceSha, spans)
    ensures Elements(Map(Map(spans, RecordOf(lib, sourceSha)), TraceOf)) == TraceIds(spans)
  {
    hide RequiredHexId, Filtered, IsUint64;
    var traces := Map(Map(spans, RecordOf(lib, sourceSha)), TraceOf);
    forall i | 0 <= i < |spans| ensures RequiredHexId(spans[i].traceId, 32) == Some(traces[i]) {
      assert RecordOf(lib, sourceSha)(spans[i]) == Collected(lib, sourceSha, spans[i]).value;
    }
    forall t ensures t in Elements(traces) <==> t in TraceIds(spans) {
      if i :| 0 <= i < |traces| && traces[i] == t { assert RequiredHexId(spans[i].traceId, 32).value == t; }
      if t in TraceIds(spans) {
        var i :| 0 <= i < |spans| && RequiredHexId(spans[i].traceId, 32) == Some(t);
        assert traces[i] == t;
      }
    }
  }

  /** By trace, then by start, then by span; a span without a start counts as 0. */
  predicate InOrder(a: CollectedSpan, b: CollectedSpan) {
    var s, t := match a.start case Some(n) => n case None => 0, match b.start case Some(n) => n case None => 0;
    || StringLess(a.traceHash, b.traceHash)
    || (a.traceHash == b.traceHash && (s < t || (s == t && StringLe(a.spanHash, b.spanHash))))
  }

  lemma OrderSpelled(spans: seq<CollectedSpan>)
    requires SortedBy(spans, SpanLe)
    ensures forall i, j :: 0 <= i < j < |spans| ==> InOrder(spans[i], spans[j])
  {
    hide StringLe;
  }

  /** Every collected manifest records exactly the spans of the export, sorted,
      and counts what it left out of them. */
  lemma ManifestRecordsSpans(lib: Library, source: Source, maxSpans: int, spans: seq<RawSpan>)
    requires Collection(lib, source, maxSpans, spans).Ok?
    ensures var m := Collection(lib, source, maxSpans, spans).value;
            && m.artifactId == source.artifactId && m.sourceSha == source.sha256 && m.byteCount == source.byteCount
            && m.traceCount == |TraceIds(spans)| && m.spanCount == |m.spans| == |spans|
            && (forall i, j :: 0 <= i < j < |m.spans| ==> InOrder(m.spans[i], m.spans[j]))
            && (exists records :: RecordsEach(lib, source.sha256, spans, records) && multiset(records) == multiset(m.spans))
            && m.redacted == Sum(Map(spans, RedactedIn(lib))) && m.dropped == Sum(Map(spans, DroppedIn(lib)))
  {
    hide Gathered, Collected, Sum, IsSafeId, SpanLe, Records, RedactedIn, DroppedIn, Removed, RecordsEach, AllGood, Distinct, Sort,
      TraceIds, InOrder;
    var m := Collection(lib, source, maxSpans, spans).value;
    GatheredMeans(lib, source.sha256, maxSpans, spans);
    var listed := Map(Map(spans, RecordOf(lib, source.sha256)), SpanOf);
    GatheredRecordsEach(lib, source.sha256, spans);
    TracesCounted(lib, source.sha256, spans);
    SpanOrder();
    SortSorts(listed, SpanLe);
    OrderSpelled(m.spans);
    SameLength(listed, m.spans);
    RemovedAddUp(lib, spans);
    assert RecordsEach(lib, source.sha256, spans, listed) && multiset(listed) == multiset(m.spans);
  }
}
