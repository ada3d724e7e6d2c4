/** From a review of the gate to a signed approval: which approvals can be issued
    for what src/causure/engine.py decides. */
module GateChain {
  import opened Vocabulary
  import opened Sequences
  import opened Sorting
  import opened Engine
  import opened CheckRun
  import A = Approval

  // ---------------------------------------------------------------- the codes on the wire

  function CodeName(code: Code): string {
    match code
    case REQ001 => "CAUSURE-REQ-001"
    case VER001 => "CAUSURE-VER-001"
    case VER002 => "CAUSURE-VER-002"
    case ATT001 => "CAUSURE-ATT-001"
    case ATT002 => "CAUSURE-ATT-002"
    case ATT003 => "CAUSURE-ATT-003"
    case ATT004 => "CAUSURE-ATT-004"
    case ATT005 => "CAUSURE-ATT-005"
    case NULL001 => "CAUSURE-NULL-001"
    case MIN001 => "CAUSURE-MIN-001"
    case VAL001 => "CAUSURE-VAL-001"
    case VAL002 => "CAUSURE-VAL-002"
    case VAL003 => "CAUSURE-VAL-003"
    case MET001 => "CAUSURE-MET-001"
    case MET002 => "CAUSURE-MET-002"
  }

  /** The characters that tell the codes apart: two of the section, and the last digit. */
  function Marks(code: Code): (char, char, char) {
    match code
    case REQ001 => ('R', 'E', '1')
    case VER001 => ('V', 'E', '1')
    case VER002 => ('V', 'E', '2')
    case ATT001 => ('A', 'T', '1')
    case ATT002 => ('A', 'T', '2')
    case ATT003 => ('A', 'T', '3')
    case ATT004 => ('A', 'T', '4')
    case ATT005 => ('A', 'T', '5')
    case NULL001 => ('N', 'U', '1')
    case MIN001 => ('M', 'I', '1')
    case VAL001 => ('V', 'A', '1')
    case VAL002 => ('V', 'A', '2')
    case VAL003 => ('V', 'A', '3')
    case MET001 => ('M', 'E', '1')
    case MET002 => ('M', 'E', '2')
  }

  lemma CodeHasMarks(code: Code)
    ensures var name := CodeName(code); |name| >= 15 && Marks(code) == (name[8], name[9], name[|name| - 1])
    ensures A.IsFindingCode(CodeName(code))
  {
  }

  lemma CodeNamesDiffer(a: Code, b: Code)
    requires a != b
    ensures CodeName(a) != CodeName(b)
  {
    hide CodeName, A.IsFindingCode;
    CodeHasMarks(a);
    CodeHasMarks(b);
  }

  function Wire(f: Finding): A.ResultFinding {
    A.ResultFinding(CodeName(f.code), f.status, f.consequence)
  }

  /** The findings of the result document that is written for a review. */
  function WireFindings(review: Review): seq<A.ResultFinding> {
    Map(review.findings, Wire)
  }

  // ---------------------------------------------------------------- the decision-affecting codes

  lemma WireCodesAreUnique(c: ChangeCase, p: Policy)
    ensures A.UniqueCodes(WireFindings(ReviewOf(c, p)))
  {
    hide Findings, CodeName, CodeRank;
    FindingsAreOrdered(c, p);
    var findings := Findings(c, p);
    forall i, j | 0 <= i < j < |findings| ensures CodeName(findings[i].code) != CodeName(findings[j].code) {
      assert CodeRank(findings[i].code) < CodeRank(findings[j].code);
      CodeNamesDiffer(findings[i].code, findings[j].code);
    }
  }

  function NameOfFinding(f: Finding): string { CodeName(f.code) }

  /** The affecting codes of the document are the names of the codes that a Check
      Run plan would carry. */
  lemma {:induction false} AffectingAreAnnotated(findings: seq<Finding>)
    ensures A.AffectingCodes(Map(findings, Wire)) == Map(Filter(findings, Affects), NameOfFinding)
  {
    hide CodeName;
    if findings != [] {
      var n := |findings| - 1;
      var front, x := findings[..n], findings[n];
      AffectingAreAnnotated(front);
      assert findings == front + [x];
      assert Map(findings, Wire)[..n] == Map(front, Wire);
    }
  }

  lemma ApprovedHasNoneAffecting(findings: seq<Finding>)
    ensures Filter(findings, Affects) == [] <==> DecisionFor(findings) == Approve
  {
    hide Filter;
    NoneKept(findings, Affects);
    ApproveMeansClear(findings);
  }

  lemma EngineCodesAreSpelled(findings: seq<Finding>)
    ensures var codes := A.ConsequentialCodes(Map(findings, Wire)); forall i :: 0 <= i < |codes| ==> A.IsFindingCode(codes[i])
  {
    hide CodeName, A.ConsequentialCodes, A.AffectingCodes, A.IsFindingCode;
    var wire := Map(findings, Wire);
    var codes := A.ConsequentialCodes(wire);
    forall i | 0 <= i < |codes| ensures A.IsFindingCode(codes[i]) {
      A.ConsequentialMeans(wire, codes[i]);
      assert codes[i] in codes;
      var j :| 0 <= j < |wire| && wire[j].code == codes[i] && wire[j].consequence != NoConsequence;
      CodeHasMarks(findings[j].code);
    }
  }

  lemma PlannedFindings(c: ChangeCase, p: Policy, allowConditional: bool)
    ensures Planned(ReviewOf(c, p), allowConditional).Ok?
    ensures Planned(ReviewOf(c, p), allowConditional).value.findings == Filter(Findings(c, p), Affects)
  {
    hide Findings, Filter, DecisionFor;
    EngineReviewIsPlanned(c, p, allowConditional);
  }

  /** For every review of the gate: no finding affects the decision exactly when
      it approves, and otherwise the sorted codes of those that do make an
      acceptable exception: strictly increasing, well spelled, 1 to 15 of them.
      They name exactly the findings that the Check Run plan carries. */
  lemma EngineCodesAreExceptable(c: ChangeCase, p: Policy, allowConditional: bool)
    ensures Planned(ReviewOf(c, p), allowConditional).Ok?
    ensures var review, plan := ReviewOf(c, p), Planned(ReviewOf(c, p), allowConditional).value;
            var codes := A.ConsequentialCodes(WireFindings(review));
            && (codes == [] <==> review.decision == Approve)
            && (review.decision != Approve ==> A.ExceptionAccepted(codes) && |codes| <= 15)
            && multiset(codes) == multiset(Map(plan.findings, NameOfFinding))
  {
    hide Findings, Filter, CodeName, DecisionFor, A.AffectingCodes, A.UniqueCodes, A.IsFindingCode, Increasing, Planned, Sort;
    var findings := Findings(c, p);
    WireCodesAreUnique(c, p);
    A.ConsequentialIncrease(WireFindings(ReviewOf(c, p)));
    AffectingAreAnnotated(findings);
    ApprovedHasNoneAffecting(findings);
    EngineReviewIsPlanned(c, p, allowConditional);
    PlannedFindings(c, p, allowConditional);
    EngineCodesAreSpelled(findings);
  }

  // ---------------------------------------------------------------- approvals of the gate's reviews

  /** The bytes are a result document of this review. */
  ghost predicate IsResultOf(lib: A.Library, result: A.Bytes, review: Review) {
    && lib.decodeReview(result).Some?
    && lib.decodeReview(result).value.findings == WireFindings(review)
    && lib.decodeReview(result).value.binding.decision == review.decision
  }

  /** Over a valid chain for a review of the gate an approval can be issued at
      the right times exactly as follows: approve, for an approvable case;
      otherwise an exception that names each finding of the Check Run plan once.
      No review is beyond an exception. */
  lemma EngineReviewIsIssuedExactly(lib: A.Library, files: A.Artifacts, terms: A.Terms, sign: A.Assertion -> string,
                                    c: ChangeCase, p: Policy, allowConditional: bool)
    requires A.Chain(lib, files).Some? && IsResultOf(lib, files.result, ReviewOf(c, p))
    ensures Planned(ReviewOf(c, p), allowConditional).Ok?
    ensures var named := Map(Planned(ReviewOf(c, p), allowConditional).value.findings, NameOfFinding);
            A.CreateAssertion(lib, files, terms, sign).Some? <==>
              && A.Timely(terms, A.Chain(lib, files).value.1)
              && if terms.action == A.ApproveAction then Approvable(c, p) && terms.codes == []
                 else !Approvable(c, p) && multiset(terms.codes) == multiset(named)
  {
    hide Planned, Approvable, A.CreateAssertion, A.Timely, A.ExceptionAccepted, A.Covers, ReviewOf;
    EngineCodesAreExceptable(c, p, allowConditional);
    ApprovalIsExact(c, p);
    ChainHasResult(lib, files);
    A.AssertionIsIssuedExactly(lib, files, terms, sign);
    CoversExactly(terms, ReviewOf(c, p));
  }

  lemma ChainHasResult(lib: A.Library, files: A.Artifacts)
    requires A.Chain(lib, files).Some?
    ensures A.ParseReview(lib, files.result).Some? && A.ParseReview(lib, files.result) == lib.decodeReview(files.result)
    ensures A.Chain(lib, files).value.0.review == A.ParseReview(lib, files.result).value.binding
  {
    hide A.ConsequentialCodes, A.UniqueCodes;
  }

  /** When the codes of a result make an acceptable exception, naming them is all
      that is asked for. */
  lemma CoversExactly(terms: A.Terms, review: Review)
    requires review.decision != Approve ==> A.ExceptionAccepted(A.ConsequentialCodes(WireFindings(review)))
    ensures review.decision != Approve ==>
              (A.Covers(terms, WireFindings(review)) <==>
                 multiset(terms.codes) == multiset(A.ConsequentialCodes(WireFindings(review))))
  {
    hide Sort, A.AffectingCodes, A.IsFindingCode, Increasing, WireFindings;
    var affecting, codes := A.AffectingCodes(WireFindings(review)), A.ConsequentialCodes(WireFindings(review));
    if review.decision != Approve && multiset(terms.codes) == multiset(codes) {
      SameElements(terms.codes, codes);
      SameLength(terms.codes, codes);
      A.AllAlike(terms.codes, codes);
    }
  }
}
