/** The Check Run plan of src/causure/github_checks.py: decision-affecting
    findings are filtered from a review and the decision is recomputed from them. */
module CheckRun {
  import opened Vocabulary
  import opened Sequences
  import opened Engine

  datatype Conclusion = Success | ActionRequired | Failure

  datatype Request = Request(
    decision: Decision, action: RecommendedAction, allowConditional: bool, conclusion: Conclusion, findings: seq<Finding>)

  datatype RequestError =
    | TooManyAnnotations | ActionMismatch | UnaffectingFinding | DecisionNotReproduced | ConclusionMismatch | DuplicateCodes

  const MAX_ANNOTATIONS := 50

  function Affects(f: Finding): bool { f.consequence != NoConsequence }

  function ExpectedAction(decision: Decision): RecommendedAction {
    match decision
    case Approve => Patch
    case ConditionalPass => Patch
    case Reject => DoNotPatch
    case NeedsEvidence => CollectEvidence
    case HumanReview => Escalate
  }

  function ConclusionFor(decision: Decision, allowConditional: bool): Conclusion {
    if decision == Approve then Success
    else if decision == ConditionalPass then (if allowConditional then Success else ActionRequired)
    else if decision == Reject then Failure
    else ActionRequired
  }

  predicate DistinctCodes(findings: seq<Finding>) {
    forall i, j :: 0 <= i < j < |findings| ==> findings[i].code != findings[j].code
  }

  /** The checks a finished plan is parsed back through. */
  function ParseRequest(r: Request): Result<Request, RequestError> {
    if r.action != ExpectedAction(r.decision) then Err(ActionMismatch)
    else if exists i :: 0 <= i < |r.findings| && !Affects(r.findings[i]) then Err(UnaffectingFinding)
    else if r.decision != DecisionFor(r.findings) then Err(DecisionNotReproduced)
    else if r.conclusion != ConclusionFor(r.decision, r.allowConditional) then Err(ConclusionMismatch)
    else if |r.findings| > MAX_ANNOTATIONS then Err(TooManyAnnotations)
    else if !DistinctCodes(r.findings) then Err(DuplicateCodes)
    else Ok(r)
  }

  function Planned(review: Review, allowConditional: bool): Result<Request, RequestError> {
    var findings := Filter(review.findings, Affects);
    if |findings| > MAX_ANNOTATIONS then Err(TooManyAnnotations)
    else ParseRequest(Request(
      review.decision, review.action, allowConditional, ConclusionFor(review.decision, allowConditional), findings))
  }

  /** The filter loop of create_github_check_run_request, then the plan. */
  method CreateRequest(review: Review, allowConditional: bool) returns (r: Result<Request, RequestError>)
    ensures r == Planned(review, allowConditional)
  {
    hide ParseRequest;
    var raw := review.findings;
    var findings: seq<Finding> := [];
    for i := 0 to |raw|
      invariant findings == Filter(raw[..i], Affects)
    {
      assert raw[..i + 1][..i] == raw[..i];
      if raw[i].consequence == NoConsequence { continue; }
      findings := findings + [raw[i]];
    }
    assert raw[..|raw|] == raw;
    if |findings| > MAX_ANNOTATIONS { return Err(TooManyAnnotations); }
    return ParseRequest(Request(
      review.decision, review.action, allowConditional, ConclusionFor(review.decision, allowConditional), findings));
  }

  lemma FilteredConsequences(findings: seq<Finding>, consequence: Consequence)
    requires consequence != NoConsequence
    ensures Among(consequence, Filter(findings, Affects)) == Among(consequence, findings)
  {
    hide Filter;
    var kept := Filter(findings, Affects);
    FilterMembers(findings, Affects);
    if Among(consequence, findings) {
      var i :| 0 <= i < |findings| && findings[i].consequence == consequence;
      assert findings[i] in kept;
    }
    if Among(consequence, kept) {
      var i :| 0 <= i < |kept| && kept[i].consequence == consequence;
      var j := FilterSource(findings, Affects, i);
    }
  }

  /** Dropping the findings without consequence does not change the decision. */
  lemma FilterKeepsDecision(findings: seq<Finding>)
    ensures DecisionFor(Filter(findings, Affects)) == DecisionFor(findings)
  {
    hide Filter, Among;
    FilteredConsequences(findings, HumanReviewNeeded);
    FilteredConsequences(findings, Rejection);
    FilteredConsequences(findings, EvidenceNeeded);
    FilteredConsequences(findings, Conditional);
  }

  lemma FilteredAffect(findings: seq<Finding>)
    ensures forall i :: 0 <= i < |Filter(findings, Affects)| ==> Affects(Filter(findings, Affects)[i])
  {
    hide Filter;
    forall i | 0 <= i < |Filter(findings, Affects)| ensures Affects(Filter(findings, Affects)[i]) {
      var j := FilterSource(findings, Affects, i);
    }
  }

  /** How much a consequence weighs, and the decision it calls for. */
  function Weight(consequence: Consequence): nat {
    match consequence
    case NoConsequence => 0
    case Conditional => 1
    case EvidenceNeeded => 2
    case Rejection => 3
    case HumanReviewNeeded => 4
  }

  function Gravity(decision: Decision): nat {
    match decision
    case Approve => 0
    case ConditionalPass => 1
    case NeedsEvidence => 2
    case Reject => 3
    case HumanReview => 4
  }

  /** The decision is that of the weightiest finding, or approve. */
  ghost predicate IsWorst(decision: Decision, findings: seq<Finding>) {
    && (forall f :: f in findings ==> Weight(f.consequence) <= Gravity(decision))
    && (decision == Approve || exists f :: f in findings && Weight(f.consequence) == Gravity(decision))
  }

  lemma DecisionIsWorst(decision: Decision, findings: seq<Finding>)
    ensures decision == DecisionFor(findings) <==> IsWorst(decision, findings)
  {
    hide Among;
    forall consequence ensures Among(consequence, findings) <==> exists f :: f in findings && f.consequence == consequence {
      AmongMeans(consequence, findings);
    }
  }

  lemma AmongMeans(consequence: Consequence, findings: seq<Finding>)
    ensures Among(consequence, findings) <==> exists f :: f in findings && f.consequence == consequence
  {
    if f :| f in findings && f.consequence == consequence {
      var i :| 0 <= i < |findings| && findings[i] == f;
    }
  }

  /** What goes with a decision: the action, and the conclusion of the plan. */
  predicate Follows(decision: Decision, action: RecommendedAction, allowConditional: bool, conclusion: Conclusion) {
    && (action == Patch <==> decision in {Approve, ConditionalPass}) && (action == DoNotPatch <==> decision == Reject)
    && (action == CollectEvidence <==> decision == NeedsEvidence) && (action == Escalate <==> decision == HumanReview)
    && (conclusion == Success <==> decision == Approve || (decision == ConditionalPass && allowConditional))
    && (conclusion == Failure <==> decision == Reject)
  }

  lemma OneFollows(decision: Decision, action: RecommendedAction, allowConditional: bool, conclusion: Conclusion)
    ensures Follows(decision, action, allowConditional, conclusion) <==>
              action == ExpectedAction(decision) && conclusion == ConclusionFor(decision, allowConditional)
  {
  }

  /** A plan is accepted exactly when what a consumer recomputes from its findings
      agrees: at most fifty, each affecting and with a code of its own. */
  lemma RequestIsExact(r: Request)
    ensures ParseRequest(r).Ok? <==>
              && |r.findings| <= 50 && (forall f :: f in r.findings ==> f.consequence != NoConsequence)
              && (forall i, j :: 0 <= i < j < |r.findings| ==> r.findings[i].code != r.findings[j].code)
              && IsWorst(r.decision, r.findings) && Follows(r.decision, r.action, r.allowConditional, r.conclusion)
    ensures ParseRequest(r).Ok? ==> ParseRequest(r).value == r
  {
    hide IsWorst, DecisionFor, Follows, ExpectedAction, ConclusionFor;
    DecisionIsWorst(r.decision, r.findings);
    OneFollows(r.decision, r.action, r.allowConditional, r.conclusion);
    if i :| 0 <= i < |r.findings| && !Affects(r.findings[i]) { assert r.findings[i] in r.findings; }
  }

  /** No two affecting findings share a code. */
  ghost predicate AffectingDiffer(findings: seq<Finding>) {
    forall i, j :: 0 <= i < j < |findings| && findings[i].consequence != NoConsequence && findings[j].consequence != NoConsequence ==>
      findings[i].code != findings[j].code
  }

  ghost predicate Unshared(findings: seq<Finding>, code: Code) {
    forall i :: 0 <= i < |findings| && findings[i].consequence != NoConsequence ==> findings[i].code != code
  }

  lemma KeptUnshared(findings: seq<Finding>, code: Code)
    ensures Unshared(findings, code) <==> forall i :: 0 <= i < |Filter(findings, Affects)| ==> Filter(findings, Affects)[i].code != code
  {
    hide Filter;
    var kept := Filter(findings, Affects);
    FilterMembers(findings, Affects);
    if !Unshared(findings, code) {
      var j :| 0 <= j < |findings| && findings[j].consequence != NoConsequence && findings[j].code == code;
      assert Affects(findings[j]) && findings[j] in findings;
      var i :| 0 <= i < |kept| && kept[i] == findings[j];
    }
    if i :| 0 <= i < |kept| && kept[i].code == code {
      var j := FilterSource(findings, Affects, i);
      assert findings[j].consequence != NoConsequence && findings[j].code == code;
    }
  }

  lemma DistinctSnoc(kept: seq<Finding>, x: Finding)
    ensures DistinctCodes(kept + [x]) <==> DistinctCodes(kept) && forall i :: 0 <= i < |kept| ==> kept[i].code != x.code
  {
    var all := kept + [x];
    assert forall i :: 0 <= i < |kept| ==> all[i] == kept[i];
    assert all[|kept|] == x;
  }

  lemma DifferSnoc(front: seq<Finding>, x: Finding)
    ensures AffectingDiffer(front + [x]) <==> AffectingDiffer(front) && (Affects(x) ==> Unshared(front, x.code))
  {
    var all := front + [x];
    assert forall i :: 0 <= i < |front| ==> all[i] == front[i];
    assert all[|front|] == x;
  }

  lemma {:induction false} AffectingDistinct(findings: seq<Finding>)
    ensures DistinctCodes(Filter(findings, Affects)) <==> AffectingDiffer(findings)
  {
    if findings != [] {
      var n := |findings| - 1;
      var front, x := findings[..n], findings[n];
      hide Filter, AffectingDiffer, Unshared, DistinctCodes;
      AffectingDistinct(front);
      DistinctSnoc(Filter(front, Affects), x);
      assert findings == front + [x];
      FilterLast(front, x);
      DifferSnoc(front, x);
      KeptUnshared(front, x.code);
    } else {
      assert Filter(findings, Affects) == [];
    }
  }

  lemma PlansAreChecked(review: Review, allowConditional: bool)
    ensures Planned(review, allowConditional).Ok? <==>
              && review.decision == DecisionFor(review.findings) && review.action == ExpectedAction(review.decision)
              && |Filter(review.findings, Affects)| <= MAX_ANNOTATIONS && DistinctCodes(Filter(review.findings, Affects))
    ensures Planned(review, allowConditional).Ok? ==>
              Planned(review, allowConditional).value
              == Request(review.decision, review.action, allowConditional, ConclusionFor(review.decision, allowConditional),
                         Filter(review.findings, Affects))
  {
    hide Filter, DecisionFor, DistinctCodes;
    FilterKeepsDecision(review.findings);
    FilteredAffect(review.findings);
  }

  /** A plan is made for exactly the reviews whose decision is that of their
      weightiest finding, whose action fits it, and whose affecting findings are at
      most fifty with distinct codes: nothing a consumer recomputes can differ. */
  lemma PlansAreReproducible(review: Review, allowConditional: bool)
    ensures Planned(review, allowConditional).Ok? <==>
              && IsWorst(review.decision, review.findings)
              && (exists conclusion :: Follows(review.decision, review.action, allowConditional, conclusion))
              && |set i | 0 <= i < |review.findings| && review.findings[i].consequence != NoConsequence| <= 50
              && AffectingDiffer(review.findings)
    ensures Planned(review, allowConditional).Ok? ==>
              var request := Planned(review, allowConditional).value;
              && request.decision == review.decision && request.allowConditional == allowConditional
              && Follows(review.decision, request.action, allowConditional, request.conclusion)
              && forall f :: f in request.findings <==> f in review.findings && f.consequence != NoConsequence
  {
    hide Planned, Filter, DecisionFor, DistinctCodes, AffectingDiffer, IsWorst, Follows, ExpectedAction, ConclusionFor;
    PlansAreChecked(review, allowConditional);
    FilterMembers(review.findings, Affects);
    DecisionIsWorst(review.decision, review.findings);
    forall conclusion {
      OneFollows(review.decision, review.action, allowConditional, conclusion);
    }
    AffectingDistinct(review.findings);
    CountIsFilterLength(review.findings, Affects);
    CountIsCardinality(review.findings, Affects);
    assert Indices(review.findings, Affects) == set i | 0 <= i < |review.findings| && review.findings[i].consequence != NoConsequence;
    assert Follows(review.decision, review.action, allowConditional, ConclusionFor(review.decision, allowConditional)) <==>
           review.action == ExpectedAction(review.decision);
  }

  lemma OrderedFront(findings: seq<Finding>, first: nat, last: nat)
    requires Ordered(findings, first, last) && findings != []
    ensures var n := |findings| - 1;
            && Ordered(findings[..n], first, last) && first <= CodeRank(findings[n].code) < last
            && |findings| <= last - first
            && forall i :: 0 <= i < n ==> CodeRank(findings[..n][i].code) < CodeRank(findings[n].code)
  {
    hide CodeRank;
  }

  lemma OrderedSnoc(findings: seq<Finding>, x: Finding, first: nat, last: nat)
    requires Ordered(findings, first, last) && first <= CodeRank(x.code) < last && |findings| < last - first
    requires forall i :: 0 <= i < |findings| ==> CodeRank(findings[i].code) < CodeRank(x.code)
    ensures Ordered(findings + [x], first, last)
  {
    hide CodeRank;
  }

  lemma {:induction false} FilterKeepsOrder(findings: seq<Finding>, first: nat, last: nat)
    requires Ordered(findings, first, last)
    ensures Ordered(Filter(findings, Affects), first, last)
  {
    if findings != [] {
      var front, x := findings[..|findings| - 1], findings[|findings| - 1];
      hide Filter, CodeRank, Ordered;
      var kept := Filter(front, Affects);
      OrderedFront(findings, first, last);
      FilterKeepsOrder(front, first, last);
      forall i | 0 <= i < |kept| ensures CodeRank(kept[i].code) < CodeRank(x.code) {
        var j := FilterSource(front, Affects, i);
      }
      assert findings == front + [x];
      FilterLast(front, x);
      if Affects(x) {
        OrderedSnoc(kept, x, first, last);
      }
    }
  }

  lemma FilterLast(front: seq<Finding>, x: Finding)
    ensures Filter(front + [x], Affects) == if Affects(x) then Filter(front, Affects) + [x] else Filter(front, Affects)
    ensures |Filter(front, Affects)| <= |front|
  {
    assert (front + [x])[..|front|] == front;
  }

  /** Every review of the engine, for every case and policy, becomes a plan with
      the same decision; it succeeds iff the gate approved, or passed
      conditionally and conditions are allowed. */
  lemma EngineReviewIsPlanned(c: ChangeCase, p: Policy, allowConditional: bool)
    ensures var planned := Planned(ReviewOf(c, p), allowConditional);
            && planned.Ok? && planned.value.decision == ReviewOf(c, p).decision
            && |planned.value.findings| <= 15
            && (planned.value.conclusion == Success <==>
                  Approvable(c, p) || (ReviewOf(c, p).decision == ConditionalPass && allowConditional))
  {
    hide Findings, Filter, DecisionFor, Approvable, CodeRank;
    var findings := Findings(c, p);
    FindingsAreOrdered(c, p);
    FilterKeepsOrder(findings, 0, 15);
    ApprovalIsExact(c, p);
    PlansAreChecked(ReviewOf(c, p), allowConditional);
  }
}
