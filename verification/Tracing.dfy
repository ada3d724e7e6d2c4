/** Redacted trace manifests: the entities of src/causure/collector.py and the
    allow-lists and patterns of src/causure/constants.py. */
module Tracing {
  import opened Vocabulary

  /** An attribute value after decoding; Opaque is anything that does not decode. */
  datatype Value = Text(text: string) | Number(number: real) | Boolean(flag: bool) | Opaque

  datatype CollectedSpan = CollectedSpan(
    evidenceRef: string, traceHash: string, spanHash: string, parentHash: Option<string>,
    start: Option<int>, end: Option<int>, duration: Option<int>, kind: Option<int>, status: Option<int>,
    attributes: map<string, Value>)

  datatype TraceManifest = TraceManifest(
    artifactId: string, sourceSha: string, byteCount: int, traceCount: int, spanCount: int,
    retained: int, redacted: int, dropped: int, spans: seq<CollectedSpan>)

  const SPAN_KIND_KEY := "openinference.span.kind"

  const SPAN_KINDS: seq<string> := [
    "AGENT", "CHAIN", "EMBEDDING", "EVALUATOR", "GUARDRAIL", "LLM", "PROMPT", "RERANKER", "RETRIEVER", "TOOL"]

  const SAFE_TEXT_ATTRIBUTES: seq<string> := [
    "embedding.model_name", "gen_ai.operation.name", "gen_ai.provider.name", "gen_ai.request.model",
    "gen_ai.response.model", "llm.model_name", "llm.provider", "llm.system", "openinference.span.kind"]

  const SAFE_NUMERIC_ATTRIBUTES: seq<string> := [
    "gen_ai.usage.completion_tokens", "gen_ai.usage.input_tokens", "gen_ai.usage.output_tokens",
    "gen_ai.usage.prompt_tokens", "llm.cost.completion", "llm.cost.completion_details.audio",
    "llm.cost.completion_details.output", "llm.cost.completion_details.reasoning", "llm.cost.prompt",
    "llm.cost.prompt_details.audio", "llm.cost.prompt_details.cache_input", "llm.cost.prompt_details.cache_read",
    "llm.cost.prompt_details.cache_write", "llm.cost.prompt_details.input", "llm.cost.total",
    "llm.token_count.completion", "llm.token_count.completion_details.audio",
    "llm.token_count.completion_details.reasoning", "llm.token_count.prompt",
    "llm.token_count.prompt_details.audio", "llm.token_count.prompt_details.cache_read",
    "llm.token_count.prompt_details.cache_write", "llm.token_count.total"]

  const UINT64_MAX := 0xFFFF_FFFF_FFFF_FFFF

  predicate IsAlphanumeric(c: char) {
    'A' <= c <= 'Z' || 'a' <= c <= 'z' || '0' <= c <= '9'
  }

  predicate IsLowerHex(c: char) {
    '0' <= c <= '9' || 'a' <= c <= 'f'
  }

  predicate IsSha256(s: string) {
    |s| == 64 && forall i :: 0 <= i < 64 ==> IsLowerHex(s[i])
  }

  /** SAFE_TRACE_TEXT_PATTERN. */
  predicate IsSafeText(s: string) {
    1 <= |s| <= 128 && IsAlphanumeric(s[0]) && forall i :: 0 <= i < |s| ==> IsAlphanumeric(s[i]) || s[i] in "._:/+-"
  }

  /** The pattern shared by source, artifact and fixture identifiers. */
  predicate IsSafeId(s: string) {
    3 <= |s| <= 128 && IsAlphanumeric(s[0]) && forall i :: 0 <= i < |s| ==> IsAlphanumeric(s[i]) || s[i] in "._-"
  }

  predicate IsTextKey(key: string) { key in SAFE_TEXT_ATTRIBUTES }

  predicate IsNumericKey(key: string) { key in SAFE_NUMERIC_ATTRIBUTES }

  predicate IsSpanKind(name: string) { name in SPAN_KINDS }

  predicate IsUint64(n: int) { 0 <= n <= UINT64_MAX }

  /** The values the manifest may carry under a key. */
  predicate AllowedValue(key: string, value: Value) {
    if key == SPAN_KIND_KEY then value.Text? && IsSpanKind(value.text)
    else if IsTextKey(key) then value.Text? && IsSafeText(value.text)
    else IsNumericKey(key) && value.Number? && value.number >= 0.0
  }
}
