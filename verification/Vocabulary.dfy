/** Wire enumerations and the result type shared by the modules. */
module Vocabulary {

  datatype Result<+T, +E> = Ok(value: T) | Err(error: E)

  datatype Option<+T> = None | Some(value: T)

  datatype CheckStatus = Pass | Fail | Warning

  datatype Decision = Approve | ConditionalPass | Reject | NeedsEvidence | HumanReview

  datatype RecommendedAction = Patch | DoNotPatch | CollectEvidence | Escalate

  datatype Consequence = NoConsequence | Conditional | EvidenceNeeded | Rejection | HumanReviewNeeded

  /** The wire names of the harness components a change can touch. */
  function ComponentNames(): seq<string> {
    ["system_prompt", "tool_description", "tool_schema", "model_routing", "retrieval_configuration", "reviewer",
     "verification_step", "retry_policy", "stopping_policy", "memory_policy", "tool_implementation", "evaluator",
     "environment", "model_reasoning", "requirement", "other"]
  }
}
