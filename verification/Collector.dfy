/** Collection of redacted span metadata, src/causure/collector.py. */
module Collector {
  import opened Vocabulary
  import opened Sequences
  import opened Sorting
  import opened Tracing

  /** Library calls: SHA-256 as lower-case hexadecimal, str.upper and str.casefold. */
  datatype Library = Library(sha256: string -> string, upper: string -> string, casefold: string -> string)

  datatype RawAttribute = RawAttribute(key: string, value: Value)

  /** A span of the export. Times are the numbers the decimal fields denote;
      status is absent, or an object with an optional code. */
  datatype RawSpan = RawSpan(
    traceId: string, spanId: string, parentSpanId: Option<string>, name: string,
    start: Option<int>, end: Option<int>, status: Option<int>, kind: Option<int>, attributes: seq<RawAttribute>)

  type Scope = seq<RawSpan>
  type Resource = seq<Scope>

  datatype CollectError =
    | BadTraceId | BadSpanId | BadParentId | BadName | BadTime | EndBeforeStart | BadStatus | BadKind
    | BadKey | DuplicateKey | TooManySpans | DuplicateSpan | NoSpans | BadSourceId | BadLimit

  const SENSITIVE_FRAGMENTS: seq<string> := [
    "api_key", "arguments", "authorization", "content", "cookie", "document", "input", "message", "metadata",
    "output", "password", "prompt", "query", "reasoning", "secret", "session", "signature", "tool_call", "url", "user"]

  const MAX_CONFIGURABLE_SPANS := 100_000

  // ---------------------------------------------------------------- attributes

  datatype Disposition = Retained(value: Value) | Redacted | Dropped

  predicate Contains(s: string, fragment: string) {
    fragment <= s || (s != "" && Contains(s[1..], fragment))
  }

  predicate IsSensitiveKey(lib: Library, key: string) {
    exists i :: 0 <= i < |SENSITIVE_FRAGMENTS| && Contains(lib.casefold(key), SENSITIVE_FRAGMENTS[i])
  }

  function SafeTextValue(lib: Library, key: string, value: Value): Option<string> {
    if !value.Text? then None
    else if key == SPAN_KIND_KEY then
      var normalized := lib.upper(value.text);
      if IsSpanKind(normalized) then Some(normalized) else None
    else if IsSafeText(value.text) then Some(value.text) else None
  }

  function SafeNumericValue(value: Value): Option<real> {
    if !value.Number? || value.number < 0.0 then None else Some(value.number)
  }

  /** What becomes of one attribute. */
  function Dispose(lib: Library, a: RawAttribute): Disposition {
    if IsTextKey(a.key) then
      match SafeTextValue(lib, a.key, a.value)
      case None => Redacted
      case Some(text) => Retained(Text(text))
    else if IsNumericKey(a.key) then
      match SafeNumericValue(a.value)
      case None => Redacted
      case Some(number) => Retained(Number(number))
    else if IsSensitiveKey(lib, a.key) then Redacted
    else Dropped
  }

  /** The value an attribute would be kept with: span kinds in upper case. */
  function Normalized(lib: Library, a: RawAttribute): Value {
    if a.key == SPAN_KIND_KEY && a.value.Text? then Text(lib.upper(a.value.text)) else a.value
  }

  /** The collector keeps an attribute exactly when its normal value is one the
      manifest parser allows under its key, and drops without counting it as
      redacted only what is neither allow-listed nor sensitive. */
  lemma RetainedIffAllowed(lib: Library, a: RawAttribute)
    ensures Dispose(lib, a).Retained? <==> AllowedValue(a.key, Normalized(lib, a))
    ensures Dispose(lib, a).Retained? ==> Dispose(lib, a).value == Normalized(lib, a)
    ensures Dispose(lib, a) == Dropped <==> !IsTextKey(a.key) && !IsNumericKey(a.key) && !IsSensitiveKey(lib, a.key)
  {
    KindIsText();
    hide IsTextKey, IsNumericKey, IsSpanKind, IsSafeText, IsSensitiveKey;
  }

  lemma KindIsText()
    ensures IsTextKey(SPAN_KIND_KEY)
  {
    assert SAFE_TEXT_ATTRIBUTES[8] == SPAN_KIND_KEY;
  }

  predicate ValidKey(key: string) {
    0 < |key| <= 256
  }

  function Keys(attributes: seq<RawAttribute>): set<string> {
    set i | 0 <= i < |attributes| :: attributes[i].key
  }

  /** The retained attributes, or the first error. */
  function Filtered(lib: Library, attributes: seq<RawAttribute>): Result<map<string, Value>, CollectError> {
    if attributes == [] then Ok(map[]) else
    var front := attributes[..|attributes| - 1];
    var a := attributes[|attributes| - 1];
    match Filtered(lib, front)
    case Err(e) => Err(e)
    case Ok(kept) =>
      if !ValidKey(a.key) then Err(BadKey)
      else if a.key in Keys(front) then Err(DuplicateKey)
      else match Dispose(lib, a)
        case Retained(value) => Ok(kept[a.key := value])
        case _ => Ok(kept)
  }

  function IsRemoved(lib: Library, redacted: bool): RawAttribute -> bool {
    (a: RawAttribute) => Dispose(lib, a) == if redacted then Redacted else Dropped
  }

  /** How many attributes are redacted, or how many are dropped. */
  function Tally(lib: Library, attributes: seq<RawAttribute>, redacted: bool): nat {
    Count(attributes, IsRemoved(lib, redacted))
  }

  lemma {:induction false} ErrorsStay(lib: Library, attributes: seq<RawAttribute>, i: nat)
    requires i <= |attributes| && Filtered(lib, attributes[..i]).Err?
    ensures Filtered(lib, attributes) == Filtered(lib, attributes[..i])
  {
    if i == |attributes| {
      assert attributes[..i] == attributes;
    } else {
      var front := attributes[..|attributes| - 1];
      assert front[..i] == attributes[..i];
      ErrorsStay(lib, front, i);
    }
  }

  lemma Empty(lib: Library)
    ensures Filtered(lib, []) == Ok(map[]) && Keys([]) == {} && Tally(lib, [], true) == 0 && Tally(lib, [], false) == 0
  {
  }

  /** One attribute more. */
  lemma FilterSnoc(lib: Library, attributes: seq<RawAttribute>, i: nat)
    requires i < |attributes| && Filtered(lib, attributes[..i]).Ok?
    ensures var a, kept := attributes[i], Filtered(lib, attributes[..i]).value;
            && Keys(attributes[..i + 1]) == Keys(attributes[..i]) + {a.key}
            && Filtered(lib, attributes[..i + 1]) ==
                 if !ValidKey(a.key) then Err(BadKey)
                 else if a.key in Keys(attributes[..i]) then Err(DuplicateKey)
                 else if Dispose(lib, a).Retained? then Ok(kept[a.key := Dispose(lib, a).value]) else Ok(kept)
    ensures Tally(lib, attributes[..i + 1], true) ==
              Tally(lib, attributes[..i], true) + if Dispose(lib, attributes[i]) == Redacted then 1 else 0
    ensures Tally(lib, attributes[..i + 1], false) ==
              Tally(lib, attributes[..i], false) + if Dispose(lib, attributes[i]) == Dropped then 1 else 0
  {
    hide Dispose;
    assert attributes[..i + 1][..i] == attributes[..i];
  }

  /** The counters of one collection and the loop that advances them. */
  class RedactionCounts {
    var retained: nat
    var redacted: nat
    var dropped: nat

    constructor ()
      ensures retained == redacted == dropped == 0
    {
      retained, redacted, dropped := 0, 0, 0;
    }

    method FilterAttributes(lib: Library, attributes: seq<RawAttribute>)
      returns (r: Result<map<string, Value>, CollectError>)
      modifies this
      ensures r == Filtered(lib, attributes)
      ensures r.Ok? ==> && retained == old(retained) + |r.value|
                        && redacted == old(redacted) + Tally(lib, attributes, true)
                        && dropped == old(dropped) + Tally(lib, attributes, false)
    {
      hide Filtered, Tally, Keys, IsTextKey, IsNumericKey, IsSensitiveKey, SafeTextValue, SafeNumericValue;
      Empty(lib);
      var kept: map<string, Value> := map[];
      var seen: set<string> := {};
      assert attributes[..0] == [];
      for i := 0 to |attributes|
        invariant seen == Keys(attributes[..i]) && kept.Keys <= seen
        invariant Filtered(lib, attributes[..i]) == Ok(kept)
        invariant retained == old(retained) + |kept|
        invariant redacted == old(redacted) + Tally(lib, attributes[..i], true)
        invariant dropped == old(dropped) + Tally(lib, attributes[..i], false)
      {
        var a := attributes[i];
        FilterSnoc(lib, attributes, i);
        if !ValidKey(a.key) {
          ErrorsStay(lib, attributes, i + 1);
          return Err(BadKey);
        }
        if a.key in seen {
          ErrorsStay(lib, attributes, i + 1);
          return Err(DuplicateKey);
        }
        seen := seen + {a.key};
        if IsTextKey(a.key) {
          var safeText := SafeTextValue(lib, a.key, a.value);
          if safeText == None {
            redacted := redacted + 1;
          } else {
            kept := kept[a.key := Text(safeText.value)];
            retained := retained + 1;
          }
        } else if IsNumericKey(a.key) {
          var safeNumber := SafeNumericValue(a.value);
          if safeNumber == None {
            redacted := redacted + 1;
          } else {
            kept := kept[a.key := Number(safeNumber.value)];
            retained := retained + 1;
          }
        } else if IsSensitiveKey(lib, a.key) {
          redacted := redacted + 1;
        } else {
          dropped := dropped + 1;
        }
      }
      assert attributes[..|attributes|] == attributes;
      return Ok(kept);
    }
  }

  /** Conservation: every attribute is retained, redacted or dropped, and every
      retained one is allow-listed with an allowed value. */
  lemma {:induction false} EveryAttributeIsCounted(lib: Library, attributes: seq<RawAttribute>)
    requires Filtered(lib, attributes).Ok?
    ensures |Filtered(lib, attributes).value| + Tally(lib, attributes, true) + Tally(lib, attributes, false) == |attributes|
    ensures forall k :: k in Filtered(lib, attributes).value ==> AllowedValue(k, Filtered(lib, attributes).value[k])
    ensures Filtered(lib, attributes).value.Keys <= Keys(attributes)
  {
    if attributes != [] {
      EveryAttributeIsCounted(lib, attributes[..|attributes| - 1]);
    }
  }

  function KeyOf(a: RawAttribute): string { a.key }

  ghost predicate GoodAttributes(attributes: seq<RawAttribute>) {
    (forall i :: 0 <= i < |attributes| ==> ValidKey(attributes[i].key)) && Distinct(Map(attributes, KeyOf))
  }

  ghost predicate Keeps(lib: Library, kept: map<string, Value>, a: RawAttribute) {
    (a.key in kept <==> Dispose(lib, a).Retained?) && (a.key in kept ==> kept[a.key] == Dispose(lib, a).value)
  }

  /** Filtering accepts exactly valid, distinct keys, and what it keeps is
      decided attribute by attribute. */
  lemma {:induction false} FilteredMeans(lib: Library, attributes: seq<RawAttribute>)
    ensures Filtered(lib, attributes).Ok? <==> GoodAttributes(attributes)
    ensures Filtered(lib, attributes).Ok? ==> Filtered(lib, attributes).value.Keys <= Keys(attributes)
    ensures Filtered(lib, attributes).Ok? ==>
              forall i :: 0 <= i < |attributes| ==> Keeps(lib, Filtered(lib, attributes).value, attributes[i])
  {
    hide Dispose;
    if attributes != [] {
      var n := |attributes| - 1;
      var front, keys := attributes[..n], Map(attributes, KeyOf);
      FilteredMeans(lib, front);
      assert Map(front, KeyOf) == keys[..n];
      if GoodAttributes(attributes) {
        assert GoodAttributes(front);
        assert forall i :: 0 <= i < n ==> keys[i] == front[i].key && keys[i] != keys[n];
      } else if GoodAttributes(front) && ValidKey(attributes[n].key) && attributes[n].key !in Keys(front) {
        forall i, j | 0 <= i < j < |keys| ensures keys[i] != keys[j] {
          assert keys[i] == front[i].key;
          if j < n { assert Map(front, KeyOf)[i] != Map(front, KeyOf)[j]; }
        }
        forall i | 0 <= i <= n ensures ValidKey(attributes[i].key) {
          assert i < n ==> front[i] == attributes[i];
        }
      }
    }
  }

  lemma KeptFrom(lib: Library, a: seq<RawAttribute>, b: seq<RawAttribute>, k: string)
    requires multiset(a) == multiset(b) && Filtered(lib, a).Ok? && Filtered(lib, b).Ok? && k in Filtered(lib, a).value
    ensures k in Filtered(lib, b).value && Filtered(lib, b).value[k] == Filtered(lib, a).value[k]
  {
    hide Dispose, Filtered;
    FilteredMeans(lib, a);
    FilteredMeans(lib, b);
    SameElements(a, b);
    var i :| 0 <= i < |a| && a[i].key == k;
    assert a[i] in b;
    var j :| 0 <= j < |b| && b[j] == a[i];
    assert Keeps(lib, Filtered(lib, a).value, a[i]) && Keeps(lib, Filtered(lib, b).value, b[j]);
  }

  /** The order of the attributes of a span does not matter. */
  lemma {:induction false} FilteredPermutes(lib: Library, a: seq<RawAttribute>, b: seq<RawAttribute>)
    requires multiset(a) == multiset(b)
    ensures Filtered(lib, a).Ok? == Filtered(lib, b).Ok?
    ensures Filtered(lib, a).Ok? ==> Filtered(lib, a).value == Filtered(lib, b).value
    ensures Tally(lib, a, true) == Tally(lib, b, true) && Tally(lib, a, false) == Tally(lib, b, false)
  {
    hide Filtered, Dispose;
    GoodPermutes(lib, a, b);
    if Filtered(lib, a).Ok? {
      forall k ensures k in Filtered(lib, a).value <==> k in Filtered(lib, b).value {
        if k in Filtered(lib, a).value { KeptFrom(lib, a, b, k); }
        if k in Filtered(lib, b).value { KeptFrom(lib, b, a, k); }
      }
      forall k | k in Filtered(lib, a).value ensures Filtered(lib, b).value[k] == Filtered(lib, a).value[k] {
        KeptFrom(lib, a, b, k);
      }
    }
    CountPermutes(a, b, IsRemoved(lib, true));
    CountPermutes(a, b, IsRemoved(lib, false));
  }

  lemma GoodPermutes(lib: Library, a: seq<RawAttribute>, b: seq<RawAttribute>)
    requires multiset(a) == multiset(b)
    ensures Filtered(lib, a).Ok? == Filtered(lib, b).Ok?
  {
    FilteredMeans(lib, a);
    FilteredMeans(lib, b);
    SameElements(a, b);
    MapPermutes(a, b, KeyOf);
    if GoodAttributes(a) { DistinctStays(Map(a, KeyOf), Map(b, KeyOf)); GoodElements(a, b); }
    if GoodAttributes(b) { DistinctStays(Map(b, KeyOf), Map(a, KeyOf)); GoodElements(b, a); }
  }

  lemma GoodElements(a: seq<RawAttribute>, b: seq<RawAttribute>)
    requires GoodAttributes(a) && forall x :: x in a <==> x in b
    ensures forall i :: 0 <= i < |b| ==> ValidKey(b[i].key)
  {
    forall i | 0 <= i < |b| ensures ValidKey(b[i].key) {
      assert b[i] in a;
    }
  }

  // ---------------------------------------------------------------- one span

  /** A collected span with the identifiers it was collected under. */
  datatype SpanRecord = SpanRecord(span: CollectedSpan, traceId: string, spanId: string)

  predicate IsHex(c: char) {
    '0' <= c <= '9' || 'a' <= c <= 'f' || 'A' <= c <= 'F'
  }

  function LowerHex(c: char): char {
    if 'A' <= c <= 'F' then (c as int + 32) as char else c
  }

  /** An identifier of this many hexadecimal digits, in lower case; not all zeros. */
  function RequiredHexId(id: string, length: nat): Option<string> {
    if |id| == length && (forall i :: 0 <= i < |id| ==> IsHex(id[i])) then
      var normalized := Map(id, LowerHex);
      if forall i :: 0 <= i < |normalized| ==> normalized[i] == '0' then None else Some(normalized)
    else None
  }

  function ParentId(parent: Option<string>): Result<Option<string>, CollectError> {
    if parent == None || parent == Some("") then Ok(None)
    else match RequiredHexId(parent.value, 16)
      case None => Err(BadParentId)
      case Some(id) => Ok(Some(id))
  }

  function TraceHash(lib: Library, traceId: string): string {
    lib.sha256("causure:trace-id:" + traceId)
  }

  function SpanHash(lib: Library, traceId: string, spanId: string): string {
    lib.sha256("causure:span-id:" + traceId + ":" + spanId)
  }

  function SpanRef(sourceSha: string, spanHash: string): string {
    "trace-sha256://" + sourceSha + "/spans/" + spanHash
  }

  predicate ValidTime(time: Option<int>) {
    time.Some? ==> IsUint64(time.value)
  }

  predicate ValidEnum(value: Option<int>, maximum: int) {
    value.Some? ==> 0 <= value.value <= maximum
  }

  function Duration(start: Option<int>, end: Option<int>): Option<int> {
    if start.Some? && end.Some? then Some(end.value - start.value) else None
  }

  /** The record of one span, or its first error. */
  function Collected(lib: Library, sourceSha: string, raw: RawSpan): Result<SpanRecord, CollectError> {
    match RequiredHexId(raw.traceId, 32)
    case None => Err(BadTraceId)
    case Some(traceId) =>
    match RequiredHexId(raw.spanId, 16)
    case None => Err(BadSpanId)
    case Some(spanId) =>
    match ParentId(raw.parentSpanId)
    case Err(e) => Err(e)
    case Ok(parentId) =>
    if raw.name == "" then Err(BadName)
    else if !ValidTime(raw.start) || !ValidTime(raw.end) then Err(BadTime)
    else if raw.start.Some? && raw.end.Some? && raw.end.value < raw.start.value then Err(EndBeforeStart)
    else if !ValidEnum(raw.status, 2) then Err(BadStatus)
    else if !ValidEnum(raw.kind, 5) then Err(BadKind)
    else match Filtered(lib, raw.attributes)
    case Err(e) => Err(e)
    case Ok(kept) =>
      Ok(SpanRecord(
        CollectedSpan(
          SpanRef(sourceSha, SpanHash(lib, traceId, spanId)), TraceHash(lib, traceId), SpanHash(lib, traceId, spanId),
          if parentId.Some? then Some(SpanHash(lib, traceId, parentId.value)) else None,
          raw.start, raw.end, Duration(raw.start, raw.end), raw.kind, raw.status, kept),
        traceId, spanId))
  }

  method CollectSpan(lib: Library, sourceSha: string, raw: RawSpan, counts: RedactionCounts)
    returns (r: Result<SpanRecord, CollectError>)
    modifies counts
    ensures r == Collected(lib, sourceSha, raw)
    ensures r.Ok? ==> && counts.retained == old(counts.retained) + |r.value.span.attributes|
                      && counts.redacted == old(counts.redacted) + Tally(lib, raw.attributes, true)
                      && counts.dropped == old(counts.dropped) + Tally(lib, raw.attributes, false)
  {
    hide Filtered, Tally, RequiredHexId, IsUint64;
    var traceId := RequiredHexId(raw.traceId, 32);
    if traceId == None { return Err(BadTraceId); }
    var spanId := RequiredHexId(raw.spanId, 16);
    if spanId == None { return Err(BadSpanId); }
    var parentId: Option<string> := None;
    if raw.parentSpanId != None && raw.parentSpanId != Some("") {
      parentId := RequiredHexId(raw.parentSpanId.value, 16);
      if parentId == None { return Err(BadParentId); }
    }
    if raw.name == "" { return Err(BadName); }
    if !ValidTime(raw.start) || !ValidTime(raw.end) { return Err(BadTime); }
    var duration: Option<int> := None;
    if raw.start.Some? && raw.end.Some? {
      if raw.end.value < raw.start.value { return Err(EndBeforeStart); }
      duration := Some(raw.end.value - raw.start.value);
    }
    if !ValidEnum(raw.status, 2) { return Err(BadStatus); }
    var traceHash := TraceHash(lib, traceId.value);
    var spanHash := SpanHash(lib, traceId.value, spanId.value);
    if !ValidEnum(raw.kind, 5) { return Err(BadKind); }
    var kept := counts.FilterAttributes(lib, raw.attributes);
    if kept.Err? { return Err(kept.error); }
    return Ok(SpanRecord(
      CollectedSpan(
        SpanRef(sourceSha, spanHash), traceHash, spanHash,
        if parentId.Some? then Some(SpanHash(lib, traceId.value, parentId.value)) else None,
        raw.start, raw.end, duration, raw.kind, raw.status, kept.value),
      traceId.value, spanId.value));
  }

  /** A span up to the order of its attributes. */
  ghost function Shape(raw: RawSpan): (RawSpan, multiset<RawAttribute>) {
    (raw.(attributes := []), multiset(raw.attributes))
  }

  lemma ShapeDecides(lib: Library, sourceSha: string, a: RawSpan, b: RawSpan)
    requires Shape(a) == Shape(b)
    ensures Collected(lib, sourceSha, a).Ok? == Collected(lib, sourceSha, b).Ok?
    ensures Collected(lib, sourceSha, a).Ok? ==> Collected(lib, sourceSha, a) == Collected(lib, sourceSha, b)
    ensures Tally(lib, a.attributes, true) == Tally(lib, b.attributes, true)
    ensures Tally(lib, a.attributes, false) == Tally(lib, b.attributes, false)
  {
    hide Filtered, Tally;
    FilteredPermutes(lib, a.attributes, b.attributes);
    assert b == a.(attributes := b.attributes) by {
      assert a.(attributes := []) == b.(attributes := []);
    }
  }

  // ---------------------------------------------------------------- one document

  /** The spans of a document in the order of the three nested loops. */
  function Spans(resources: seq<Resource>): seq<RawSpan> {
    if resources == [] then [] else Spans(resources[..|resources| - 1]) + Concat(resources[|resources| - 1])
  }

  function Identity(record: SpanRecord): (string, string) { (record.traceId, record.spanId) }

  function TraceOf(record: SpanRecord): string { record.traceId }

  function SpanOf(record: SpanRecord): CollectedSpan { record.span }

  /** The records gathered from these spans, or the first error. */
  function Gathered(lib: Library, sourceSha: string, maxSpans: int, spans: seq<RawSpan>): Result<seq<SpanRecord>, CollectError> {
    if spans == [] then Ok([]) else
    match Gathered(lib, sourceSha, maxSpans, spans[..|spans| - 1])
    case Err(e) => Err(e)
    case Ok(records) =>
      if |records| >= maxSpans then Err(TooManySpans)
      else match Collected(lib, sourceSha, spans[|spans| - 1])
        case Err(e) => Err(e)
        case Ok(record) =>
          if Identity(record) in Elements(Map(records, Identity)) then Err(DuplicateSpan) else Ok(records + [record])
  }

  function KeptCount(record: SpanRecord): int { |record.span.attributes| }

  function Removed(lib: Library, redacted: bool): RawSpan -> int {
    (raw: RawSpan) => Tally(lib, raw.attributes, redacted)
  }

  function StartOf(span: CollectedSpan): int {
    if span.start.Some? then span.start.value else 0
  }

  /** The sort key: trace, start or 0, span. */
  predicate SpanLe(a: CollectedSpan, b: CollectedSpan) {
    if a.traceHash != b.traceHash then StringLe(a.traceHash, b.traceHash)
    else if StartOf(a) != StartOf(b) then StartOf(a) < StartOf(b)
    else StringLe(a.spanHash, b.spanHash)
  }

  /** Where the document comes from; the digest and length of its bytes. */
  datatype Source = Source(artifactId: string, sha256: string, byteCount: nat)

  function ManifestOf(lib: Library, source: Source, spans: seq<RawSpan>, records: seq<SpanRecord>): TraceManifest {
    TraceManifest(
      source.artifactId, source.sha256, source.byteCount, |Elements(Map(records, TraceOf))|, |records|,
      Sum(Map(records, KeptCount)), Sum(Map(spans, Removed(lib, true))), Sum(Map(spans, Removed(lib, false))),
      Sort(Map(records, SpanOf), SpanLe))
  }

  function Collection(lib: Library, source: Source, maxSpans: int, spans: seq<RawSpan>): Result<TraceManifest, CollectError> {
    if !IsSafeId(source.artifactId) then Err(BadSourceId)
    else if !(1 <= maxSpans <= MAX_CONFIGURABLE_SPANS) then Err(BadLimit)
    else match Gathered(lib, source.sha256, maxSpans, spans)
    case Err(e) => Err(e)
    case Ok(records) => if records == [] then Err(NoSpans) else Ok(ManifestOf(lib, source, spans, records))
  }

  lemma {:induction false} GatherErrorsStay(lib: Library, sourceSha: string, maxSpans: int, spans: seq<RawSpan>, done: seq<RawSpan>)
    requires done <= spans && Gathered(lib, sourceSha, maxSpans, done).Err?
    ensures Gathered(lib, sourceSha, maxSpans, spans) == Gathered(lib, sourceSha, maxSpans, done)
  {
    if |done| == |spans| {
      assert done == spans;
    } else {
      GatherErrorsStay(lib, sourceSha, maxSpans, spans[..|spans| - 1], done);
    }
  }

  lemma {:induction false} SpansPrefix(resources: seq<Resource>, i: nat)
    requires i <= |resources|
    ensures Spans(resources[..i]) <= Spans(resources)
  {
    if i == |resources| {
      assert resources[..i] == resources;
    } else {
      SpansPrefix(resources[..|resources| - 1], i);
      assert resources[..|resources| - 1][..i] == resources[..i];
    }
  }

  lemma {:induction false} ConcatPrefix<T>(parts: seq<seq<T>>, i: nat)
    requires i <= |parts|
    ensures Concat(parts[..i]) <= Concat(parts)
  {
    if i == |parts| {
      assert parts[..i] == parts;
    } else {
      ConcatPrefix(parts[..|parts| - 1], i);
      assert parts[..|parts| - 1][..i] == parts[..i];
    }
  }

  /** The spans seen when the loops stand at span k of scope j of resource i. */
  ghost function Seen(resources: seq<Resource>, i: nat, j: nat, k: nat): seq<RawSpan>
    requires i < |resources| && j < |resources[i]| && k <= |resources[i][j]|
  {
    Spans(resources[..i]) + Concat(resources[i][..j]) + resources[i][j][..k]
  }

  lemma SeenIsPrefix(resources: seq<Resource>, i: nat, j: nat, k: nat)
    requires i < |resources| && j < |resources[i]| && k <= |resources[i][j]|
    ensures Seen(resources, i, j, k) <= Spans(resources)
  {
    var scopes := resources[i];
    assert scopes[..j + 1][..j] == scopes[..j];
    assert Concat(scopes[..j + 1]) == Concat(scopes[..j]) + scopes[j];
    ConcatPrefix(scopes, j + 1);
    assert resources[..i + 1][..i] == resources[..i];
    assert Spans(resources[..i + 1]) == Spans(resources[..i]) + Concat(scopes);
    SpansPrefix(resources, i + 1);
    assert Concat(scopes[..j]) + scopes[j][..k] <= Concat(scopes);
  }

  lemma GatherSnoc(lib: Library, sourceSha: string, maxSpans: int, spans: seq<RawSpan>, raw: RawSpan)
    requires Gathered(lib, sourceSha, maxSpans, spans).Ok?
    ensures var records := Gathered(lib, sourceSha, maxSpans, spans).value;
            Gathered(lib, sourceSha, maxSpans, spans + [raw]) ==
              if |records| >= maxSpans then Err(TooManySpans)
              else match Collected(lib, sourceSha, raw)
                case Err(e) => Err(e)
                case Ok(record) =>
                  if Identity(record) in Elements(Map(records, Identity)) then Err(DuplicateSpan) else Ok(records + [record])
  {
    hide Collected;
    assert (spans + [raw])[..|spans|] == spans;
  }

  ghost predicate Counted(lib: Library, spans: seq<RawSpan>, records: seq<SpanRecord>, retained: nat, redacted: nat, dropped: nat) {
    && retained == Sum(Map(records, KeptCount))
    && redacted == Sum(Map(spans, Removed(lib, true)))
    && dropped == Sum(Map(spans, Removed(lib, false)))
  }

  lemma CountedSnoc(lib: Library, spans: seq<RawSpan>, raw: RawSpan, records: seq<SpanRecord>, record: SpanRecord,
                    retained: nat, redacted: nat, dropped: nat)
    requires Counted(lib, spans, records, retained, redacted, dropped)
    ensures Counted(lib, spans + [raw], records + [record], retained + |record.span.attributes|,
                    redacted + Tally(lib, raw.attributes, true), dropped + Tally(lib, raw.attributes, false))
  {
    hide Tally, Sum, Map;
    SumMapSnoc(records, record, KeptCount);
    SumMapSnoc(spans, raw, Removed(lib, true));
    SumMapSnoc(spans, raw, Removed(lib, false));
  }

  /** The state of the three loops of one collection. */
  class Collecting {
    var records: seq<SpanRecord>
    var traceIds: set<string>
    var spanKeys: set<(string, string)>
    const counts: RedactionCounts

    constructor ()
      ensures records == [] && traceIds == {} && spanKeys == {} && fresh(counts)
      ensures counts.retained == counts.redacted == counts.dropped == 0
    {
      records, traceIds, spanKeys := [], {}, {};
      counts := new RedactionCounts();
    }

    /** Everything the loops hold is what gathering these spans gives. */
    ghost predicate Holds(lib: Library, sourceSha: string, maxSpans: int, spans: seq<RawSpan>)
      reads this, counts
    {
      && Gathered(lib, sourceSha, maxSpans, spans) == Ok(records)
      && traceIds == Elements(Map(records, TraceOf)) && spanKeys == Elements(Map(records, Identity))
      && Counted(lib, spans, records, counts.retained, counts.redacted, counts.dropped)
    }

    /** The innermost loop body. */
    method Take(lib: Library, sourceSha: string, maxSpans: int, raw: RawSpan, ghost done: seq<RawSpan>)
      returns (error: Option<CollectError>)
      requires Holds(lib, sourceSha, maxSpans, done)
      modifies this, counts
      ensures error.Some? ==> Gathered(lib, sourceSha, maxSpans, done + [raw]) == Err(error.value)
      ensures error.None? ==> Holds(lib, sourceSha, maxSpans, done + [raw])
    {
      hide Gathered, Collected, Tally, Counted;
      GatherSnoc(lib, sourceSha, maxSpans, done, raw);
      if |records| >= maxSpans { return Some(TooManySpans); }
      ghost var before := (records, counts.retained, counts.redacted, counts.dropped);
      var collected := CollectSpan(lib, sourceSha, raw, counts);
      if collected.Err? { return Some(collected.error); }
      var record := collected.value;
      if (record.traceId, record.spanId) in spanKeys { return Some(DuplicateSpan); }
      spanKeys := spanKeys + {(record.traceId, record.spanId)};
      traceIds := traceIds + {record.traceId};
      records := records + [record];
      CountedSnoc(lib, done, raw, before.0, record, before.1, before.2, before.3);
      assert Map(records, TraceOf) == Map(before.0, TraceOf) + [record.traceId];
      assert Map(records, Identity) == Map(before.0, Identity) + [Identity(record)];
      return None;
    }
  }

  /** Collection of a whole document: the three nested loops, then the sort. */
  method Collect(lib: Library, source: Source, maxSpans: int, resources: seq<Resource>)
    returns (r: Result<TraceManifest, CollectError>)
    ensures r == Collection(lib, source, maxSpans, Spans(resources))
  {
    hide Gathered, Collected, Tally, Counted;
    if !IsSafeId(source.artifactId) { return Err(BadSourceId); }
    if !(1 <= maxSpans <= MAX_CONFIGURABLE_SPANS) { return Err(BadLimit); }
    var state := new Collecting();
    NothingGathered(lib, source.sha256, maxSpans);
    assert resources[..0] == [];
    for i := 0 to |resources|
      invariant fresh(state) && fresh(state.counts)
      invariant state.Holds(lib, source.sha256, maxSpans, Spans(resources[..i]))
    {
      assert Spans(resources[..i]) + Concat(resources[i][..0]) == Spans(resources[..i]);
      for j := 0 to |resources[i]|
        invariant fresh(state) && fresh(state.counts)
        invariant state.Holds(lib, source.sha256, maxSpans, Spans(resources[..i]) + Concat(resources[i][..j]))
      {
        var scope := resources[i][j];
        assert Seen(resources, i, j, 0) == Spans(resources[..i]) + Concat(resources[i][..j]);
        for k := 0 to |scope|
          invariant fresh(state) && fresh(state.counts)
          invariant state.Holds(lib, source.sha256, maxSpans, Seen(resources, i, j, k))
        {
          SeenIsPrefix(resources, i, j, k + 1);
          assert Seen(resources, i, j, k) + [scope[k]] == Seen(resources, i, j, k + 1);
          var error := state.Take(lib, source.sha256, maxSpans, scope[k], Seen(resources, i, j, k));
          if error.Some? {
            GatherErrorsStay(lib, source.sha256, maxSpans, Spans(resources), Seen(resources, i, j, k + 1));
            return Err(error.value);
          }
        }
        ScopeDone(resources, i, j);
      }
      ResourceDone(resources, i);
    }
    assert resources[..|resources|] == resources;
    if state.records == [] { return Err(NoSpans); }
    var sorted := Sort(Map(state.records, SpanOf), SpanLe);
    CountedMeans(lib, Spans(resources), state.records, state.counts.retained, state.counts.redacted, state.counts.dropped);
    return Ok(TraceManifest(
      source.artifactId, source.sha256, source.byteCount, |state.traceIds|, |state.records|,
      state.counts.retained, state.counts.redacted, state.counts.dropped, sorted));
  }

  lemma NothingGathered(lib: Library, sourceSha: string, maxSpans: int)
    ensures Gathered(lib, sourceSha, maxSpans, []) == Ok([]) && Spans([]) == [] && Counted(lib, [], [], 0, 0, 0)
  {
  }

  lemma CountedMeans(lib: Library, spans: seq<RawSpan>, records: seq<SpanRecord>, retained: nat, redacted: nat, dropped: nat)
    requires Counted(lib, spans, records, retained, redacted, dropped)
    ensures retained == Sum(Map(records, KeptCount))
    ensures redacted == Sum(Map(spans, Removed(lib, true))) && dropped == Sum(Map(spans, Removed(lib, false)))
  {
  }

  lemma ScopeDone(resources: seq<Resource>, i: nat, j: nat)
    requires i < |resources| && j < |resources[i]|
    ensures Seen(resources, i, j, |resources[i][j]|) == Spans(resources[..i]) + Concat(resources[i][..j + 1])
  {
    assert resources[i][..j + 1][..j] == resources[i][..j];
    assert resources[i][j][..|resources[i][j]|] == resources[i][j];
  }

  lemma ResourceDone(resources: seq<Resource>, i: nat)
    requires i < |resources|
    ensures Spans(resources[..i]) + Concat(resources[i][..|resources[i]|]) == Spans(resources[..i + 1])
  {
    assert resources[..i + 1][..i] == resources[..i];
    assert resources[i][..|resources[i]|] == resources[i];
  }

  // ---------------------------------------------------------------- conservation

  function AttributeCount(raw: RawSpan): int { |raw.attributes| }

  function KeptOf(span: CollectedSpan): int { |span.attributes| }

  ghost predicate AllAllowed(span: CollectedSpan) {
    forall k :: k in span.attributes ==> AllowedValue(k, span.attributes[k])
  }

  lemma NothingSummed(lib: Library)
    ensures Sum(Map([], KeptCount)) == Sum(Map([], Removed(lib, true))) == Sum(Map([], Removed(lib, false))) == 0
    ensures Sum(Map([], AttributeCount)) == 0
  {
  }

  lemma {:induction false} GatheredConserves(lib: Library, sourceSha: string, maxSpans: int, spans: seq<RawSpan>)
    requires Gathered(lib, sourceSha, maxSpans, spans).Ok?
    ensures var records := Gathered(lib, sourceSha, maxSpans, spans).value;
            && Sum(Map(records, KeptCount)) + Sum(Map(spans, Removed(lib, true))) + Sum(Map(spans, Removed(lib, false)))
               == Sum(Map(spans, AttributeCount))
            && forall i :: 0 <= i < |records| ==> AllAllowed(records[i].span)
  {
    hide Gathered, Collected, Sum, Map, Tally, AllAllowed;
    if spans == [] {
      NothingGathered(lib, sourceSha, maxSpans);
      NothingSummed(lib);
    } else {
      var n := |spans| - 1;
      var front, raw := spans[..n], spans[n];
      assert spans == front + [raw];
      if Gathered(lib, sourceSha, maxSpans, front).Err? {
        GatherErrorsStay(lib, sourceSha, maxSpans, spans, front);
      }
      GatheredConserves(lib, sourceSha, maxSpans, front);
      GatherSnoc(lib, sourceSha, maxSpans, front, raw);
      var records := Gathered(lib, sourceSha, maxSpans, front).value;
      var record := Collected(lib, sourceSha, raw).value;
      RecordConserves(lib, sourceSha, raw);
      SumMapSnoc(records, record, KeptCount);
      SumMapSnoc(front, raw, Removed(lib, true));
      SumMapSnoc(front, raw, Removed(lib, false));
      SumMapSnoc(front, raw, AttributeCount);
    }
  }

  lemma RecordConserves(lib: Library, sourceSha: string, raw: RawSpan)
    requires Collected(lib, sourceSha, raw).Ok?
    ensures var record := Collected(lib, sourceSha, raw).value;
            && |record.span.attributes| + Tally(lib, raw.attributes, true) + Tally(lib, raw.attributes, false) == |raw.attributes|
            && AllAllowed(record.span)
  {
    hide Filtered, Tally, AllowedValue;
    EveryAttributeIsCounted(lib, raw.attributes);
  }

  lemma SumPermuted<T>(a: seq<T>, b: seq<T>, f: T -> int)
    requires multiset(a) == multiset(b)
    ensures Sum(Map(a, f)) == Sum(Map(b, f))
  {
    MapPermutes(a, b, f);
    SumPermutes(Map(a, f), Map(b, f));
  }

  /** Collection conserves: every attribute of every span is retained, redacted
      or dropped; the retained count is what the spans of the manifest hold; and
      nothing outside the allow-lists is kept. */
  lemma CollectionConserves(lib: Library, source: Source, maxSpans: int, spans: seq<RawSpan>)
    requires Collection(lib, source, maxSpans, spans).Ok?
    ensures var m := Collection(lib, source, maxSpans, spans).value;
            && m.retained + m.redacted + m.dropped == Sum(Map(spans, AttributeCount))
            && m.retained == Sum(Map(m.spans, KeptOf))
            && forall i :: 0 <= i < |m.spans| ==> AllAllowed(m.spans[i])
  {
    hide Gathered, Tally, Sum, AllAllowed, IsSafeId, SpanLe;
    var m := Collection(lib, source, maxSpans, spans).value;
    var records := Gathered(lib, source.sha256, maxSpans, spans).value;
    GatheredConserves(lib, source.sha256, maxSpans, spans);
    assert Map(Map(records, SpanOf), KeptOf) == Map(records, KeptCount);
    SumPermuted(Map(records, SpanOf), m.spans, KeptOf);
    SameElements(Map(records, SpanOf), m.spans);
    forall i | 0 <= i < |m.spans| ensures AllAllowed(m.spans[i]) {
      assert m.spans[i] in Map(records, SpanOf);
    }
  }

  // ---------------------------------------------------------------- order does not matter

  const NO_RECORD := SpanRecord(CollectedSpan("", "", "", None, None, None, None, None, None, map[]), "", "")

  function RecordOf(lib: Library, sourceSha: string): RawSpan -> SpanRecord {
    (raw: RawSpan) => match Collected(lib, sourceSha, raw) case Ok(record) => record case Err(_) => NO_RECORD
  }

  function IsGood(lib: Library, sourceSha: string): RawSpan -> bool {
    (raw: RawSpan) => Collected(lib, sourceSha, raw).Ok?
  }

  ghost predicate AllGood(lib: Library, sourceSha: string, spans: seq<RawSpan>) {
    forall i :: 0 <= i < |spans| ==> Collected(lib, sourceSha, spans[i]).Ok?
  }

  /** Gathering accepts exactly good spans with distinct identities, up to the
      limit, and gives their records. */
  lemma {:induction false} GatheredMeans(lib: Library, sourceSha: string, maxSpans: int, spans: seq<RawSpan>)
    requires maxSpans >= 0
    ensures Gathered(lib, sourceSha, maxSpans, spans).Ok? <==>
              && |spans| <= maxSpans && AllGood(lib, sourceSha, spans)
              && Distinct(Map(Map(spans, RecordOf(lib, sourceSha)), Identity))
    ensures Gathered(lib, sourceSha, maxSpans, spans).Ok? ==>
              Gathered(lib, sourceSha, maxSpans, spans).value == Map(spans, RecordOf(lib, sourceSha))
  {
    hide Collected;
    if spans != [] {
      var n := |spans| - 1;
      var front, raw := spans[..n], spans[n];
      assert spans == front + [raw];
      GatheredMeans(lib, sourceSha, maxSpans, front);
      var records := Map(spans, RecordOf(lib, sourceSha));
      var earlier := Map(front, RecordOf(lib, sourceSha));
      assert earlier == records[..n] && records == earlier + [records[n]];
      DistinctSnoc(Map(earlier, Identity), Identity(records[n]));
      assert Map(records, Identity) == Map(earlier, Identity) + [Identity(records[n])];
      AllGoodSnoc(lib, sourceSha, front, raw);
    }
  }

  lemma AllGoodSnoc(lib: Library, sourceSha: string, spans: seq<RawSpan>, raw: RawSpan)
    ensures AllGood(lib, sourceSha, spans + [raw]) <==> AllGood(lib, sourceSha, spans) && Collected(lib, sourceSha, raw).Ok?
  {
    hide Collected;
    var longer := spans + [raw];
    if AllGood(lib, sourceSha, longer) {
      assert Collected(lib, sourceSha, longer[|spans|]).Ok?;
      forall i | 0 <= i < |spans| ensures Collected(lib, sourceSha, spans[i]).Ok? {
        assert spans[i] == longer[i];
      }
    }
  }

  lemma DistinctSnoc<T>(s: seq<T>, x: T)
    ensures Distinct(s + [x]) <==> Distinct(s) && x !in Elements(s)
  {
    var t := s + [x];
    if Distinct(t) {
      assert forall i :: 0 <= i < |s| ==> t[i] == s[i] && t[i] != t[|s|];
    }
  }

  predicate IsId(id: string, length: nat) {
    |id| == length && forall i :: 0 <= i < |id| ==> IsLowerHex(id[i])
  }

  /** The digest tells apart the identifiers that can occur in a document. */
  ghost predicate InjectiveOnIds(lib: Library) {
    && (forall t, u | IsId(t, 32) && IsId(u, 32) && TraceHash(lib, t) == TraceHash(lib, u) :: t == u)
    && (forall t, u, s, v | IsId(t, 32) && IsId(u, 32) && IsId(s, 16) && IsId(v, 16)
          && SpanHash(lib, t, s) == SpanHash(lib, u, v) :: t == u && s == v)
  }

  predicate HasIds(lib: Library, record: SpanRecord) {
    && IsId(record.traceId, 32) && IsId(record.spanId, 16)
    && record.span.traceHash == TraceHash(lib, record.traceId)
    && record.span.spanHash == SpanHash(lib, record.traceId, record.spanId)
  }

  lemma CollectedHasIds(lib: Library, sourceSha: string, raw: RawSpan)
    requires Collected(lib, sourceSha, raw).Ok?
    ensures HasIds(lib, Collected(lib, sourceSha, raw).value)
  {
    hide Filtered;
  }

  lemma OnePosition<T>(s: seq<T>, i: nat, j: nat)
    requires Distinct(s) && i < |s| && j < |s| && s[i] == s[j]
    ensures i == j
  {
  }

  lemma SpansUntied(lib: Library, records: seq<SpanRecord>)
    requires InjectiveOnIds(lib) && Distinct(Map(records, Identity))
    requires forall i :: 0 <= i < |records| ==> HasIds(lib, records[i])
    ensures Untied(Map(records, SpanOf), SpanLe)
  {
    var s, ids := Map(records, SpanOf), Map(records, Identity);
    forall i, j | 0 <= i < |s| && 0 <= j < |s| && SpanLe(s[i], s[j]) && SpanLe(s[j], s[i]) ensures s[i] == s[j] {
      StringTotal(s[i].traceHash, s[j].traceHash);
      StringTotal(s[i].spanHash, s[j].spanHash);
      OnePosition(ids, i, j);
    }
  }

  lemma SpanOrder()
    ensures Preorder(SpanLe)
  {
    forall x, y ensures SpanLe(x, y) || SpanLe(y, x) {
      StringTotal(x.traceHash, y.traceHash);
      StringTotal(x.spanHash, y.spanHash);
    }
    forall x, y, z | SpanLe(x, y) && SpanLe(y, z) ensures SpanLe(x, z) {
      if x.traceHash == z.traceHash && x.traceHash != y.traceHash {
        StringTotal(x.traceHash, y.traceHash);
      }
      if StringLe(x.traceHash, y.traceHash) && StringLe(y.traceHash, z.traceHash) {
        StringTransitive(x.traceHash, y.traceHash, z.traceHash);
      }
      if StringLe(x.spanHash, y.spanHash) && StringLe(y.spanHash, z.spanHash) {
        StringTransitive(x.spanHash, y.spanHash, z.spanHash);
      }
    }
  }

  /** The same spans, whatever the grouping, the order of the spans, or the order
      of the attributes within each. */
  ghost predicate SameSpans(a: seq<RawSpan>, b: seq<RawSpan>) {
    multiset(Map(a, Shape)) == multiset(Map(b, Shape))
  }

  lemma SameRecords(lib: Library, sourceSha: string, a: seq<RawSpan>, b: seq<RawSpan>)
    requires SameSpans(a, b)
    ensures |a| == |b|
    ensures multiset(Map(a, RecordOf(lib, sourceSha))) == multiset(Map(b, RecordOf(lib, sourceSha)))
    ensures AllGood(lib, sourceSha, a) == AllGood(lib, sourceSha, b)
    ensures Sum(Map(a, Removed(lib, true))) == Sum(Map(b, Removed(lib, true)))
    ensures Sum(Map(a, Removed(lib, false))) == Sum(Map(b, Removed(lib, false)))
  {
    hide Collected, Tally, Sum;
    forall x, y | Shape(x) == Shape(y)
      ensures RecordOf(lib, sourceSha)(x) == RecordOf(lib, sourceSha)(y) && IsGood(lib, sourceSha)(x) == IsGood(lib, sourceSha)(y)
      ensures Removed(lib, true)(x) == Removed(lib, true)(y) && Removed(lib, false)(x) == Removed(lib, false)(y)
    {
      ShapeDecides(lib, sourceSha, x, y);
    }
    ShapesPermute(a, b, Shape, RecordOf(lib, sourceSha));
    ShapesPermute(a, b, Shape, IsGood(lib, sourceSha));
    ShapesPermute(a, b, Shape, Removed(lib, true));
    ShapesPermute(a, b, Shape, Removed(lib, false));
    SumPermutes(Map(a, Removed(lib, true)), Map(b, Removed(lib, true)));
    SumPermutes(Map(a, Removed(lib, false)), Map(b, Removed(lib, false)));
    GoodMeans(lib, sourceSha, a);
    GoodMeans(lib, sourceSha, b);
    SameElements(Map(a, IsGood(lib, sourceSha)), Map(b, IsGood(lib, sourceSha)));
  }

  lemma GoodMeans(lib: Library, sourceSha: string, s: seq<RawSpan>)
    ensures AllGood(lib, sourceSha, s) <==> false !in Map(s, IsGood(lib, sourceSha))
  {
    hide Collected;
    var good := Map(s, IsGood(lib, sourceSha));
    if AllGood(lib, sourceSha, s) {
      forall i | 0 <= i < |good| ensures good[i] { assert Collected(lib, sourceSha, s[i]).Ok?; }
    } else {
      var i :| 0 <= i < |s| && !Collected(lib, sourceSha, s[i]).Ok?;
      assert good[i] == false;
    }
  }

  lemma SameIdentities(a: seq<SpanRecord>, b: seq<SpanRecord>)
    requires multiset(a) == multiset(b)
    ensures Distinct(Map(a, Identity)) == Distinct(Map(b, Identity))
    ensures Elements(Map(a, TraceOf)) == Elements(Map(b, TraceOf))
  {
    MapPermutes(a, b, Identity);
    if Distinct(Map(a, Identity)) { DistinctStays(Map(a, Identity), Map(b, Identity)); }
    if Distinct(Map(b, Identity)) { DistinctStays(Map(b, Identity), Map(a, Identity)); }
    MapPermutes(a, b, TraceOf);
    SameElements(Map(a, TraceOf), Map(b, TraceOf));
  }

  lemma GatheredFacts(lib: Library, sourceSha: string, maxSpans: int, spans: seq<RawSpan>, records: seq<SpanRecord>)
    requires maxSpans >= 0 && Gathered(lib, sourceSha, maxSpans, spans) == Ok(records)
    ensures records == Map(spans, RecordOf(lib, sourceSha)) && Distinct(Map(records, Identity))
    ensures forall i :: 0 <= i < |records| ==> HasIds(lib, records[i])
  {
    hide Gathered, Collected, HasIds;
    GatheredMeans(lib, sourceSha, maxSpans, spans);
    forall i | 0 <= i < |records| ensures HasIds(lib, records[i]) {
      CollectedHasIds(lib, sourceSha, spans[i]);
    }
  }

  lemma SameGathering(lib: Library, sourceSha: string, maxSpans: int, a: seq<RawSpan>, b: seq<RawSpan>)
    requires SameSpans(a, b) && maxSpans >= 0
    ensures Gathered(lib, sourceSha, maxSpans, a).Ok? == Gathered(lib, sourceSha, maxSpans, b).Ok?
  {
    hide Gathered, Collected, SameSpans;
    SameRecords(lib, sourceSha, a, b);
    GatheredMeans(lib, sourceSha, maxSpans, a);
    GatheredMeans(lib, sourceSha, maxSpans, b);
    SameIdentities(Map(a, RecordOf(lib, sourceSha)), Map(b, RecordOf(lib, sourceSha)));
  }

  /** For a fixed source digest the manifest depends only on which spans there
      are: two documents with the same spans are both refused or both give the
      very same manifest. */
  lemma CollectionIgnoresOrder(lib: Library, source: Source, maxSpans: int, a: seq<Resource>, b: seq<Resource>)
    requires InjectiveOnIds(lib) && SameSpans(Spans(a), Spans(b))
    ensures Collection(lib, source, maxSpans, Spans(a)).Ok? == Collection(lib, source, maxSpans, Spans(b)).Ok?
    ensures Collection(lib, source, maxSpans, Spans(a)).Ok? ==>
              Collection(lib, source, maxSpans, Spans(a)) == Collection(lib, source, maxSpans, Spans(b))
  {
    hide Gathered, HasIds, InjectiveOnIds, Sum;
    if IsSafeId(source.artifactId) && 1 <= maxSpans <= MAX_CONFIGURABLE_SPANS {
      SameGathering(lib, source.sha256, maxSpans, Spans(a), Spans(b));
      if Gathered(lib, source.sha256, maxSpans, Spans(a)).Ok? {
        var records := Gathered(lib, source.sha256, maxSpans, Spans(a)).value;
        var records' := Gathered(lib, source.sha256, maxSpans, Spans(b)).value;
        GatheredFacts(lib, source.sha256, maxSpans, Spans(a), records);
        GatheredFacts(lib, source.sha256, maxSpans, Spans(b), records');
        SameRecords(lib, source.sha256, Spans(a), Spans(b));
        SameLength(records, records');
        SameIdentities(records, records');
        SumPermuted(records, records', KeptCount);
        MapPermutes(records, records', SpanOf);
        SpansUntied(lib, records);
        SpanOrder();
        SortCanonical(Map(records, SpanOf), Map(records', SpanOf), SpanLe);
      }
    }
  }
}
