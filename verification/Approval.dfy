/** The signed approval chain of src/causure/approvals.py over the Azure
    publication and its verification receipt, src/causure/azure_devops.py. */
module Approval {
  import opened Vocabulary
  import opened Sequences
  import opened Sorting

  type Bytes = string

  datatype Action = ApproveAction | ExceptionAction

  datatype Subject = Subject(sha256: string, byteCount: nat)

  /** reviewedAt may carry a fraction of a second; every other time is whole seconds. */
  datatype ReviewBinding = ReviewBinding(identity: string, reviewedAt: real, decision: Decision)

  /** The stable fields of one finding of a review result. */
  datatype ResultFinding = ResultFinding(code: string, status: CheckStatus, consequence: Consequence)

  datatype ReviewResult = ReviewResult(binding: ReviewBinding, findings: seq<ResultFinding>)

  datatype Build = Build(buildId: int, context: string)

  datatype Publication = Publication(
    createdAt: int, review: ReviewBinding, tfvc: string, build: Build, result: Subject, report: Subject)

  datatype Receipt = Receipt(
    verifiedAt: int, maximumAge: int, age: int, publication: Subject, review: ReviewBinding, tfvc: string,
    buildId: int, result: Subject, report: Subject)

  datatype Assertion = Assertion(
    authorityId: string, keyId: string, action: Action, authenticatedAt: int, issuedAt: int, expiresAt: int,
    publication: Subject, receipt: Subject, exceptedCodes: Option<seq<string>>, revocationListId: string, signature: string)

  datatype TrustedKey = TrustedKey(
    keyId: string, authorityId: string, publicKey: string, validFrom: int, validUntil: int, allowed: set<Action>)

  datatype TrustStore = TrustStore(revocationListId: string, keys: seq<TrustedKey>)

  datatype RevocationMode = AllSignatures | IssuedAtOrAfter

  datatype Revocation = Revocation(keyId: string, revokedAt: int, mode: RevocationMode)

  datatype RevocationList = RevocationList(listId: string, updatedAt: int, revoked: seq<Revocation>)

  /** What the verifier is told about the present. */
  datatype Request = Request(tfvc: string, build: Build, checkedAt: int, maxRevocationAge: int, clockSkew: int)

  datatype Artifacts = Artifacts(publication: Bytes, receipt: Bytes, result: Bytes, report: Bytes)

  /** Library calls: the digest, the decoding of each document, whether a build
      belongs to its target, whether a report fits a review, and the signature
      check over an assertion. */
  datatype Library = Library(
    sha256: Bytes -> string,
    decodeAssertion: Bytes -> Option<Assertion>,
    decodePublication: Bytes -> Option<Publication>,
    decodeReceipt: Bytes -> Option<Receipt>,
    decodeReview: Bytes -> Option<ReviewResult>,
    targetFits: (string, Build) -> bool,
    reportFits: (Bytes, ReviewBinding) -> bool,
    signed: (string, Assertion) -> bool)

  datatype ApprovalError =
    | AssertionInvalid | BadRequest | RevocationListMismatch | UntrustedKey | AuthorityMismatch | ActionNotAuthorized
    | InvalidSignature | KeyNotYetValid | KeyValidityExceeded | IssuedInFuture | ApprovalExpired
    | RevocationListFromFuture | RevocationListStale | KeyRevoked | SubjectMismatch | ChainInvalid | ReceiptMismatch

  const MAX_PUBLICATION_AGE := 86_400
  const MAX_REVIEW_TO_PUBLICATION := 300
  const MAX_LIFETIME := 86_400
  const MAX_VERIFICATION_TO_AUTHENTICATION := 86_400
  const MAX_AUTHENTICATION_TO_ISSUE := 900
  const MAX_REVOCATION_AGE := 2_678_400
  const MAX_CLOCK_SKEW := 3_600
  const MAX_EXCEPTED_CODES := 64
  const MAX_DOCUMENT_BYTES := 1_048_576
  const MAX_RESULT_BYTES := 5_242_880
  const MAX_REPORT_BYTES := 2_097_152

  // ---------------------------------------------------------------- documents

  /** The pattern of a finding code. */
  predicate IsFindingCode(code: string) {
    && 3 <= |code| <= 128 && (IsLetter(code[0]) || IsDigit(code[0]))
    && forall i :: 0 <= i < |code| ==> IsLetter(code[i]) || IsDigit(code[i]) || code[i] in "._-"
  }

  predicate IsLetter(c: char) { 'A' <= c <= 'Z' || 'a' <= c <= 'z' }

  predicate IsDigit(c: char) { '0' <= c <= '9' }

  predicate ExceptionAccepted(codes: seq<string>) {
    1 <= |codes| <= MAX_EXCEPTED_CODES && (forall i :: 0 <= i < |codes| ==> IsFindingCode(codes[i])) && Increasing(codes)
  }

  /** The time and exception rules of parse_approval_assertion. */
  predicate AssertionAccepted(a: Assertion) {
    && (a.action == ApproveAction <==> a.exceptedCodes.None?)
    && (a.exceptedCodes.Some? ==> ExceptionAccepted(a.exceptedCodes.value))
    && a.authenticatedAt <= a.issuedAt && a.issuedAt - a.authenticatedAt <= MAX_AUTHENTICATION_TO_ISSUE
    && a.issuedAt < a.expiresAt && a.expiresAt - a.issuedAt <= MAX_LIFETIME
  }

  function ParseAssertion(lib: Library, bytes: Bytes): Option<Assertion> {
    if bytes == "" || |bytes| > MAX_DOCUMENT_BYTES then None
    else match lib.decodeAssertion(bytes)
    case None => None
    case Some(a) => if AssertionAccepted(a) then Some(a) else None
  }

  function ParsePublication(lib: Library, bytes: Bytes): Option<Publication> {
    if bytes == "" || |bytes| > MAX_DOCUMENT_BYTES then None
    else match lib.decodePublication(bytes)
    case None => None
    case Some(p) =>
      var gap := p.createdAt as real - p.review.reviewedAt;
      if gap < -1.0 || gap > MAX_REVIEW_TO_PUBLICATION as real || !lib.targetFits(p.tfvc, p.build) then None else Some(p)
  }

  function ParseReceipt(lib: Library, bytes: Bytes): Option<Receipt> {
    if bytes == "" || |bytes| > MAX_DOCUMENT_BYTES then None
    else match lib.decodeReceipt(bytes)
    case None => None
    case Some(v) => if 1 <= v.maximumAge <= MAX_PUBLICATION_AGE && 0 <= v.age <= v.maximumAge then Some(v) else None
  }

  function CodeOf(f: ResultFinding): string { f.code }

  function HasConsequence(f: ResultFinding): bool { f.consequence != NoConsequence }

  predicate UniqueCodes(findings: seq<ResultFinding>) {
    forall i, j :: 0 <= i < j < |findings| ==> findings[i].code != findings[j].code
  }

  function ParseReview(lib: Library, bytes: Bytes): Option<ReviewResult> {
    if bytes == "" || |bytes| > MAX_RESULT_BYTES then None
    else match lib.decodeReview(bytes)
    case None => None
    case Some(result) => if UniqueCodes(result.findings) then Some(result) else None
  }

  /** The codes of the findings that affect the decision, as they are listed. */
  function AffectingCodes(findings: seq<ResultFinding>): seq<string> {
    Map(Filter(findings, HasConsequence), CodeOf)
  }

  function ConsequentialCodes(findings: seq<ResultFinding>): seq<string> {
    Sort(AffectingCodes(findings), StringLe)
  }

  /** _validate_report. */
  predicate ReportAccepted(lib: Library, report: Bytes, review: ReviewBinding) {
    1 <= |report| <= MAX_REPORT_BYTES && lib.reportFits(report, review)
  }

  function SubjectOf(lib: Library, bytes: Bytes): Subject {
    Subject(lib.sha256(bytes), |bytes|)
  }

  // ---------------------------------------------------------------- the publication and the receipt

  /** create_azure_review_publication: the publication is parsed back before it is returned. */
  function CreatePublication(lib: Library, result: Bytes, report: Bytes, tfvc: string, build: Build, createdAt: int): Option<Publication> {
    match ParseReview(lib, result)
    case None => None
    case Some(review) =>
      var gap := createdAt as real - review.binding.reviewedAt;
      if !ReportAccepted(lib, report, review.binding) || !lib.targetFits(tfvc, build) then None
      else if gap < -1.0 || gap > MAX_REVIEW_TO_PUBLICATION as real then None
      else Some(Publication(createdAt, review.binding, tfvc, build, SubjectOf(lib, result), SubjectOf(lib, report)))
  }

  /** verify_azure_review_publication: the receipt of these artifacts at this time. */
  function ReceiptFor(lib: Library, a: Artifacts, tfvc: string, build: Build, verifiedAt: int, maximumAge: int): Option<Receipt> {
    if !(1 <= maximumAge <= MAX_PUBLICATION_AGE) then None
    else match ParsePublication(lib, a.publication)
    case None => None
    case Some(p) =>
      if p.tfvc != tfvc || p.build != build || verifiedAt < p.createdAt || verifiedAt - p.createdAt > maximumAge then None
      else if |a.result| > MAX_RESULT_BYTES || SubjectOf(lib, a.result) != p.result then None
      else if |a.report| > MAX_REPORT_BYTES || SubjectOf(lib, a.report) != p.report then None
      else if ParseReview(lib, a.result).None? || ParseReview(lib, a.result).value.binding != p.review then None
      else if !ReportAccepted(lib, a.report, p.review) then None
      else Some(Receipt(verifiedAt, maximumAge, verifiedAt - p.createdAt, SubjectOf(lib, a.publication),
                        p.review, p.tfvc, p.build.buildId, p.result, p.report))
  }

  /** _validate_receipt_chain: the publication, the receipt and the result agree;
      with them come the codes of the findings that affect the decision. */
  function Chain(lib: Library, a: Artifacts): Option<(Publication, Receipt, seq<string>)> {
    match ParsePublication(lib, a.publication)
    case None => None
    case Some(p) =>
    match ParseReceipt(lib, a.receipt)
    case None => None
    case Some(v) =>
    match ParseReview(lib, a.result)
    case None => None
    case Some(review) =>
      if v.publication != SubjectOf(lib, a.publication) || v.review != p.review || review.binding != p.review then None
      else if v.tfvc != p.tfvc || v.buildId != p.build.buildId || v.result != p.result || v.report != p.report then None
      else if SubjectOf(lib, a.result) != p.result then None
      else if v.verifiedAt < p.createdAt || v.verifiedAt - p.createdAt != v.age then None
      else Some((p, v, ConsequentialCodes(review.findings)))
  }

  /** _validate_action_scope: the approval is recent, and covers the decision. */
  predicate ScopeAccepted(a: Assertion, p: Publication, v: Receipt, consequential: seq<string>) {
    && v.verifiedAt <= a.authenticatedAt && a.authenticatedAt - v.verifiedAt <= MAX_VERIFICATION_TO_AUTHENTICATION
    && a.expiresAt - v.verifiedAt <= MAX_LIFETIME
    && if a.action == ApproveAction then p.review.decision == Approve
       else p.review.decision != Approve && consequential != [] && a.exceptedCodes == Some(consequential)
  }

  // ---------------------------------------------------------------- keys and revocations

  function FirstKey(keys: seq<TrustedKey>, keyId: string): Option<TrustedKey> {
    if keys == [] then None
    else if keys[0].keyId == keyId then Some(keys[0]) else FirstKey(keys[1..], keyId)
  }

  function FirstRevocation(revoked: seq<Revocation>, keyId: string): Option<Revocation> {
    if revoked == [] then None
    else if revoked[0].keyId == keyId then Some(revoked[0]) else FirstRevocation(revoked[1..], keyId)
  }

  function KeyIdOf(k: TrustedKey): string { k.keyId }

  function RevokedIdOf(r: Revocation): string { r.keyId }

  /** What parse_approval_trust_store and parse_approval_revocation_list demand. */
  ghost predicate StoreAccepted(keys: seq<TrustedKey>) {
    && Distinct(Map(keys, KeyIdOf))
    && forall i :: 0 <= i < |keys| ==> keys[i].validFrom < keys[i].validUntil && keys[i].allowed != {}
  }

  ghost predicate RevocationsAccepted(revoked: seq<Revocation>) {
    Distinct(Map(revoked, RevokedIdOf))
  }

  /** The loop of parse_approval_trust_store over already decoded entries. */
  method ParseKeys(entries: seq<TrustedKey>) returns (keys: Option<seq<TrustedKey>>)
    ensures keys == if StoreAccepted(entries) then Some(entries) else None
  {
    var parsed: seq<TrustedKey> := [];
    var ids: set<string> := {};
    var repeated := false;
    for i := 0 to |entries|
      invariant parsed == entries[..i] && ids == set k | 0 <= k < i :: entries[k].keyId
      invariant forall k :: 0 <= k < i ==> entries[k].validFrom < entries[k].validUntil && entries[k].allowed != {}
      invariant repeated <==> exists j, k :: 0 <= j < k < i && entries[j].keyId == entries[k].keyId
    {
      if entries[i].validUntil <= entries[i].validFrom || entries[i].allowed == {} { return None; }
      if entries[i].keyId in ids {
        repeated := true;
      }
      ids := ids + {entries[i].keyId};
      parsed := parsed + [entries[i]];
    }
    assert Distinct(Map(entries, KeyIdOf)) <==> !repeated by {
      assert forall j, k :: 0 <= j < k < |entries| ==>
               (Map(entries, KeyIdOf)[j] == Map(entries, KeyIdOf)[k] <==> entries[j].keyId == entries[k].keyId);
    }
    assert parsed == entries;
    return if repeated then None else Some(parsed);
  }

  predicate Revokes(revocation: Revocation, a: Assertion) {
    revocation.mode == AllSignatures || a.issuedAt >= revocation.revokedAt
  }

  predicate RequestAccepted(r: Request) {
    0 <= r.maxRevocationAge <= MAX_REVOCATION_AGE && 0 <= r.clockSkew <= MAX_CLOCK_SKEW
  }

  function CheckKey(lib: Library, a: Assertion, store: TrustStore, list: RevocationList): Result<TrustedKey, ApprovalError> {
    if store.revocationListId != a.revocationListId || list.listId != store.revocationListId then Err(RevocationListMismatch)
    else match FirstKey(store.keys, a.keyId)
    case None => Err(UntrustedKey)
    case Some(key) =>
      if key.authorityId != a.authorityId then Err(AuthorityMismatch)
      else if a.action !in key.allowed then Err(ActionNotAuthorized)
      else if !lib.signed(key.publicKey, a) then Err(InvalidSignature)
      else Ok(key)
  }

  function CheckTimes(a: Assertion, key: TrustedKey, list: RevocationList, r: Request): Option<ApprovalError> {
    if a.issuedAt < key.validFrom then Some(KeyNotYetValid)
    else if a.issuedAt >= key.validUntil || a.expiresAt > key.validUntil then Some(KeyValidityExceeded)
    else if a.issuedAt > r.checkedAt + r.clockSkew then Some(IssuedInFuture)
    else if r.checkedAt >= a.expiresAt then Some(ApprovalExpired)
    else if list.updatedAt > r.checkedAt + r.clockSkew then Some(RevocationListFromFuture)
    else if r.checkedAt - list.updatedAt > r.maxRevocationAge + r.clockSkew then Some(RevocationListStale)
    else match FirstRevocation(list.revoked, key.keyId)
      case Some(revocation) => if Revokes(revocation, a) then Some(KeyRevoked) else None
      case None => None
  }

  function CheckChain(lib: Library, a: Assertion, files: Artifacts, r: Request): Option<ApprovalError> {
    if SubjectOf(lib, files.publication) != a.publication || SubjectOf(lib, files.receipt) != a.receipt then Some(SubjectMismatch)
    else match Chain(lib, files)
    case None => Some(ChainInvalid)
    case Some((p, v, codes)) =>
      match ReceiptFor(lib, files, r.tfvc, r.build, v.verifiedAt, v.maximumAge)
      case None => Some(ChainInvalid)
      case Some(expected) =>
        if expected != v then Some(ReceiptMismatch)
        else if !ScopeAccepted(a, p, v, codes) then Some(ChainInvalid)
        else None
  }

  /** verify_approval_assertion. */
  function Verify(lib: Library, assertion: Bytes, files: Artifacts, store: TrustStore, list: RevocationList, r: Request):
    Result<Assertion, ApprovalError>
  {
    match ParseAssertion(lib, assertion)
    case None => Err(AssertionInvalid)
    case Some(a) =>
      if !RequestAccepted(r) then Err(BadRequest)
      else match CheckKey(lib, a, store, list)
      case Err(e) => Err(e)
      case Ok(key) =>
        match CheckTimes(a, key, list, r)
        case Some(e) => Err(e)
        case None =>
          match CheckChain(lib, a, files, r)
          case Some(e) => Err(e)
          case None => Ok(a)
  }

  // ---------------------------------------------------------------- what an accepted approval means

  /** The documents of an accepted approval. */
  ghost predicate Accepted(lib: Library, assertion: Bytes, files: Artifacts, store: TrustStore, list: RevocationList, r: Request,
                           a: Assertion, p: Publication, v: Receipt, key: TrustedKey) {
    && Verify(lib, assertion, files, store, list, r) == Ok(a)
    && ParsePublication(lib, files.publication) == Some(p) && ParseReceipt(lib, files.receipt) == Some(v)
    && FirstKey(store.keys, a.keyId) == Some(key)
  }

  /** Every accepted approval comes with its publication, receipt and key. */
  lemma AcceptedDocuments(lib: Library, assertion: Bytes, files: Artifacts, store: TrustStore, list: RevocationList, r: Request)
    returns (a: Assertion, p: Publication, v: Receipt, key: TrustedKey)
    requires Verify(lib, assertion, files, store, list, r).Ok?
    ensures Accepted(lib, assertion, files, store, list, r, a, p, v, key)
  {
    hide AssertionAccepted, ScopeAccepted, FirstKey, FirstRevocation;
    a := Verify(lib, assertion, files, store, list, r).value;
    p := ParsePublication(lib, files.publication).value;
    v := ParseReceipt(lib, files.receipt).value;
    key := FirstKey(store.keys, a.keyId).value;
  }

  /** The times of an accepted approval are in order, so it is used less than
      173,100 seconds after the review it approves: 300 from review to
      publication, a day to the receipt, a day to expiry. */
  lemma ApprovalWindow(lib: Library, assertion: Bytes, files: Artifacts, store: TrustStore, list: RevocationList, r: Request,
                       a: Assertion, p: Publication, v: Receipt, key: TrustedKey)
    requires Accepted(lib, assertion, files, store, list, r, a, p, v, key)
    ensures p.createdAt <= v.verifiedAt <= a.authenticatedAt <= a.issuedAt < a.expiresAt
    ensures r.checkedAt < a.expiresAt && a.issuedAt <= r.checkedAt + r.clockSkew
    ensures key.validFrom <= a.issuedAt && a.expiresAt <= key.validUntil
    ensures -1.0 <= p.createdAt as real - p.review.reviewedAt <= 300.0
    ensures r.checkedAt as real - p.review.reviewedAt < 173_100.0
  {
    hide FirstKey, FirstRevocation, Increasing;
  }

  /** The code belongs to a finding that affects the decision. */
  ghost predicate AffectsUnder(findings: seq<ResultFinding>, code: string) {
    exists i :: 0 <= i < |findings| && findings[i].code == code && findings[i].consequence != NoConsequence
  }

  lemma ConsequentialMeans(findings: seq<ResultFinding>, code: string)
    ensures code in ConsequentialCodes(findings) <==> AffectsUnder(findings, code)
    ensures code in AffectingCodes(findings) <==> AffectsUnder(findings, code)
  {
    hide Filter, Sort;
    var kept, codes := Filter(findings, HasConsequence), AffectingCodes(findings);
    SameElements(codes, ConsequentialCodes(findings));
    FilterMembers(findings, HasConsequence);
    if code in codes {
      var i :| 0 <= i < |kept| && codes[i] == code;
      var j := FilterSource(findings, HasConsequence, i);
      assert findings[j].code == code;
    }
    if AffectsUnder(findings, code) {
      var j :| 0 <= j < |findings| && findings[j].code == code && findings[j].consequence != NoConsequence;
      assert findings[j] in kept;
      var i :| 0 <= i < |kept| && kept[i] == findings[j];
      assert codes[i] == code;
    }
  }

  /** What an approval covers: an approve action stands on an approve decision;
      an exception on another one, and it names exactly the findings of the
      result that affect the decision. */
  lemma ApprovalScope(lib: Library, assertion: Bytes, files: Artifacts, store: TrustStore, list: RevocationList, r: Request,
                      a: Assertion, p: Publication, v: Receipt, key: TrustedKey)
    requires Accepted(lib, assertion, files, store, list, r, a, p, v, key)
    ensures lib.decodeReview(files.result).Some? && lib.decodeReview(files.result).value.binding == p.review
    ensures p.review.decision == Approve <==> a.action == ApproveAction
    ensures a.action == ExceptionAction ==>
              && a.exceptedCodes.Some?
              && (forall code :: code in a.exceptedCodes.value <==> AffectsUnder(lib.decodeReview(files.result).value.findings, code))
              && exists code :: AffectsUnder(lib.decodeReview(files.result).value.findings, code)
    ensures a.action in key.allowed && lib.signed(key.publicKey, a) && key.authorityId == a.authorityId
    ensures p.tfvc == r.tfvc && p.build == r.build && lib.reportFits(files.report, p.review)
  {
    hide FirstKey, FirstRevocation, ExceptionAccepted, ConsequentialCodes, AffectsUnder;
    if a.action == ExceptionAction {
      var findings := lib.decodeReview(files.result).value.findings;
      var codes := a.exceptedCodes.value;
      assert codes == ConsequentialCodes(findings) && codes != [];
      forall code ensures code in codes <==> AffectsUnder(findings, code) { ConsequentialMeans(findings, code); }
      assert codes[0] in codes;
    }
  }

  ghost predicate InjectiveDigest(lib: Library) {
    forall x, y :: lib.sha256(x) == lib.sha256(y) ==> x == y
  }

  /** Without collisions one assertion is accepted with at most one publication,
      receipt, result and report, whoever asks and whenever. */
  lemma ApprovalBindsArtifacts(lib: Library, assertion: Bytes,
                               files: Artifacts, store: TrustStore, list: RevocationList, r: Request,
                               files': Artifacts, store': TrustStore, list': RevocationList, r': Request)
    requires InjectiveDigest(lib)
    requires Verify(lib, assertion, files, store, list, r).Ok? && Verify(lib, assertion, files', store', list', r').Ok?
    ensures files == files'
  {
    hide FirstKey, FirstRevocation, AssertionAccepted, ScopeAccepted;
    SubjectsMatch(lib, assertion, files, store, list, r);
    SubjectsMatch(lib, assertion, files', store', list', r');
  }

  lemma SubjectsMatch(lib: Library, assertion: Bytes, files: Artifacts, store: TrustStore, list: RevocationList, r: Request)
    requires Verify(lib, assertion, files, store, list, r).Ok?
    ensures ParseAssertion(lib, assertion).Some? && ParsePublication(lib, files.publication).Some?
    ensures var a, p := ParseAssertion(lib, assertion).value, ParsePublication(lib, files.publication).value;
            && SubjectOf(lib, files.publication) == a.publication && SubjectOf(lib, files.receipt) == a.receipt
            && SubjectOf(lib, files.result) == p.result && SubjectOf(lib, files.report) == p.report
  {
    hide FirstKey, FirstRevocation, AssertionAccepted, ScopeAccepted;
  }

  // ---------------------------------------------------------------- keys are found whatever their order

  lemma {:induction false} FirstKeyMeans(keys: seq<TrustedKey>, keyId: string)
    requires Distinct(Map(keys, KeyIdOf))
    ensures FirstKey(keys, keyId).None? <==> forall k :: k in keys ==> k.keyId != keyId
    ensures forall k :: k in keys && k.keyId == keyId ==> FirstKey(keys, keyId) == Some(k)
  {
    if keys != [] {
      var ids := Map(keys, KeyIdOf);
      assert Map(keys[1..], KeyIdOf) == ids[1..];
      FirstKeyMeans(keys[1..], keyId);
      assert keys == [keys[0]] + keys[1..];
      forall i | 0 < i < |keys| ensures keys[i].keyId != keys[0].keyId {
        assert ids[0] != ids[i];
      }
    }
  }

  lemma {:induction false} FirstRevocationMeans(revoked: seq<Revocation>, keyId: string)
    requires Distinct(Map(revoked, RevokedIdOf))
    ensures FirstRevocation(revoked, keyId).None? <==> forall e :: e in revoked ==> e.keyId != keyId
    ensures forall e :: e in revoked && e.keyId == keyId ==> FirstRevocation(revoked, keyId) == Some(e)
  {
    if revoked != [] {
      var ids := Map(revoked, RevokedIdOf);
      assert Map(revoked[1..], RevokedIdOf) == ids[1..];
      FirstRevocationMeans(revoked[1..], keyId);
      assert revoked == [revoked[0]] + revoked[1..];
      forall i | 0 < i < |revoked| ensures revoked[i].keyId != revoked[0].keyId {
        assert ids[0] != ids[i];
      }
    }
  }

  /** With a parsed revocation list no entry of it revokes an accepted approval. */
  lemma AcceptedIsNotRevoked(lib: Library, assertion: Bytes, files: Artifacts, store: TrustStore, list: RevocationList, r: Request,
                             a: Assertion, p: Publication, v: Receipt, key: TrustedKey)
    requires Accepted(lib, assertion, files, store, list, r, a, p, v, key) && RevocationsAccepted(list.revoked)
    ensures forall e :: e in list.revoked && e.keyId == a.keyId ==> e.mode == IssuedAtOrAfter && a.issuedAt < e.revokedAt
    ensures -r.clockSkew <= r.checkedAt - list.updatedAt <= r.maxRevocationAge + r.clockSkew
  {
    hide AssertionAccepted, ScopeAccepted, CheckChain, ParseAssertion, ParsePublication, ParseReceipt, Distinct;
    FirstRevocationMeans(list.revoked, key.keyId);
    FoundKeyHasId(store.keys, a.keyId);
  }

  /** What the verifier's answer alone says: the approval is fresh, fits the
      decision, and carries the signature of a key of the store that may give it,
      was valid throughout and is not revoked. */
  lemma VerifiedMeans(lib: Library, assertion: Bytes, files: Artifacts, store: TrustStore, list: RevocationList, r: Request)
    requires Verify(lib, assertion, files, store, list, r).Ok? && RevocationsAccepted(list.revoked)
    ensures ParsePublication(lib, files.publication).Some?
    ensures var a, review := Verify(lib, assertion, files, store, list, r).value, ParsePublication(lib, files.publication).value.review;
            && r.checkedAt as real - review.reviewedAt < 173_100.0
            && (review.decision == Approve <==> a.action == ApproveAction)
            && (forall e :: e in list.revoked && e.keyId == a.keyId ==> e.mode == IssuedAtOrAfter && a.issuedAt < e.revokedAt)
            && exists key :: key in store.keys && MayGive(lib, key, a)
  {
    hide Verify, ParsePublication, ParseReceipt, FirstKey, RevocationsAccepted;
    var a, p, v, key := AcceptedDocuments(lib, assertion, files, store, list, r);
    ApprovalWindow(lib, assertion, files, store, list, r, a, p, v, key);
    ApprovalScope(lib, assertion, files, store, list, r, a, p, v, key);
    AcceptedIsNotRevoked(lib, assertion, files, store, list, r, a, p, v, key);
    FoundKeyHasId(store.keys, a.keyId);
    assert MayGive(lib, key, a);
  }

  predicate MayGive(lib: Library, key: TrustedKey, a: Assertion) {
    && key.keyId == a.keyId && key.authorityId == a.authorityId && a.action in key.allowed
    && key.validFrom <= a.issuedAt && a.expiresAt <= key.validUntil && lib.signed(key.publicKey, a)
  }

  lemma {:induction false} FoundKeyHasId(keys: seq<TrustedKey>, keyId: string)
    ensures FirstKey(keys, keyId).Some? ==> FirstKey(keys, keyId).value.keyId == keyId && FirstKey(keys, keyId).value in keys
  {
    if keys != [] && keys[0].keyId != keyId {
      FoundKeyHasId(keys[1..], keyId);
    }
  }

  lemma SameKey(keys: seq<TrustedKey>, keys': seq<TrustedKey>, keyId: string)
    requires multiset(keys) == multiset(keys') && Distinct(Map(keys, KeyIdOf))
    ensures FirstKey(keys, keyId) == FirstKey(keys', keyId)
  {
    MapPermutes(keys, keys', KeyIdOf);
    DistinctStays(Map(keys, KeyIdOf), Map(keys', KeyIdOf));
    SameElements(keys, keys');
    FirstKeyMeans(keys, keyId);
    FirstKeyMeans(keys', keyId);
    FoundKeyHasId(keys, keyId);
  }

  lemma {:induction false} FoundRevocationHasId(revoked: seq<Revocation>, keyId: string)
    ensures FirstRevocation(revoked, keyId).Some? ==>
              FirstRevocation(revoked, keyId).value.keyId == keyId && FirstRevocation(revoked, keyId).value in revoked
  {
    if revoked != [] && revoked[0].keyId != keyId {
      FoundRevocationHasId(revoked[1..], keyId);
    }
  }

  lemma SameRevocation(revoked: seq<Revocation>, revoked': seq<Revocation>, keyId: string)
    requires multiset(revoked) == multiset(revoked') && Distinct(Map(revoked, RevokedIdOf))
    ensures FirstRevocation(revoked, keyId) == FirstRevocation(revoked', keyId)
  {
    MapPermutes(revoked, revoked', RevokedIdOf);
    DistinctStays(Map(revoked, RevokedIdOf), Map(revoked', RevokedIdOf));
    SameElements(revoked, revoked');
    FirstRevocationMeans(revoked, keyId);
    FirstRevocationMeans(revoked', keyId);
    FoundRevocationHasId(revoked, keyId);
  }

  /** The order of keys and revocations never decides: parsing made them unique. */
  lemma VerificationIgnoresOrder(lib: Library, assertion: Bytes, files: Artifacts, r: Request,
                                 store: TrustStore, keys: seq<TrustedKey>, list: RevocationList, revoked: seq<Revocation>)
    requires StoreAccepted(store.keys) && RevocationsAccepted(list.revoked)
    requires multiset(keys) == multiset(store.keys) && multiset(revoked) == multiset(list.revoked)
    ensures Verify(lib, assertion, files, store.(keys := keys), list.(revoked := revoked), r)
            == Verify(lib, assertion, files, store, list, r)
  {
    hide FirstKey, FirstRevocation, CheckChain, AssertionAccepted, Distinct;
    var parsed := ParseAssertion(lib, assertion);
    if parsed.Some? {
      SameKey(store.keys, keys, parsed.value.keyId);
      if FirstKey(store.keys, parsed.value.keyId).Some? {
        SameRevocation(list.revoked, revoked, FirstKey(store.keys, parsed.value.keyId).value.keyId);
      }
    }
  }

  // ---------------------------------------------------------------- issuing

  /** What the issuer of an approval chooses. */
  datatype Terms = Terms(
    authorityId: string, keyId: string, revocationListId: string, action: Action,
    authenticatedAt: int, issuedAt: int, expiresAt: int, codes: seq<string>)

  /** create_approval_assertion: the subjects are the digests of the exact files. */
  function CreateAssertion(lib: Library, files: Artifacts, terms: Terms, sign: Assertion -> string): Option<Assertion> {
    match Chain(lib, files)
    case None => None
    case Some((p, v, codes)) =>
      if terms.action == ApproveAction && terms.codes != [] then None else
      var draft := Draft(lib, files, terms);
      if !AssertionAccepted(draft) || !ScopeAccepted(draft, p, v, codes) then None
      else Some(draft.(signature := sign(draft)))
  }

  function Draft(lib: Library, files: Artifacts, terms: Terms): Assertion {
    Assertion(
      terms.authorityId, terms.keyId, terms.action, terms.authenticatedAt, terms.issuedAt, terms.expiresAt,
      SubjectOf(lib, files.publication), SubjectOf(lib, files.receipt),
      if terms.action == ApproveAction then None else Some(Sort(terms.codes, StringLe)), terms.revocationListId, "")
  }

  /** The times of the terms are in order, and recent after the receipt. */
  predicate Timely(terms: Terms, v: Receipt) {
    && v.verifiedAt <= terms.authenticatedAt <= terms.issuedAt < terms.expiresAt
    && terms.authenticatedAt <= v.verifiedAt + 86_400
    && terms.issuedAt <= terms.authenticatedAt + 900
    && terms.expiresAt <= v.verifiedAt + 86_400
  }

  lemma SortedAlike(a: seq<string>, b: seq<string>)
    ensures Sort(a, StringLe) == Sort(b, StringLe) <==> multiset(a) == multiset(b)
  {
    hide Sort;
    StringPreorder();
    SortSorts(a, StringLe);
    SortSorts(b, StringLe);
    if multiset(a) == multiset(b) {
      StringsUntied(a);
      SortCanonical(a, b, StringLe);
    }
  }

  lemma {:induction false} KeptAreUnique(findings: seq<ResultFinding>)
    requires UniqueCodes(findings)
    ensures UniqueCodes(Filter(findings, HasConsequence))
  {
    if findings != [] {
      var n := |findings| - 1;
      var front, kept := findings[..n], Filter(findings[..n], HasConsequence);
      assert forall i :: 0 <= i < n ==> front[i] == findings[i];
      KeptAreUnique(front);
      forall i | 0 <= i < |kept| ensures kept[i].code != findings[n].code {
        var j := FilterSource(front, HasConsequence, i);
      }
    }
  }

  lemma ConsequentialIncrease(findings: seq<ResultFinding>)
    requires UniqueCodes(findings)
    ensures Increasing(ConsequentialCodes(findings)) && |ConsequentialCodes(findings)| == |AffectingCodes(findings)|
  {
    hide Sort, Filter, Increasing;
    KeptAreUnique(findings);
    SortIncreasing(AffectingCodes(findings));
  }

  /** The terms name each affecting finding once, and they are few and well spelled. */
  ghost predicate Covers(terms: Terms, findings: seq<ResultFinding>) {
    && multiset(terms.codes) == multiset(AffectingCodes(findings))
    && 1 <= |terms.codes| <= 64 && forall i :: 0 <= i < |terms.codes| ==> IsFindingCode(terms.codes[i])
  }

  lemma ExceptionMeans(terms: Terms, findings: seq<ResultFinding>)
    requires UniqueCodes(findings)
    ensures var codes, listed := ConsequentialCodes(findings), Sort(terms.codes, StringLe);
            ExceptionAccepted(listed) && codes != [] && listed == codes <==> Covers(terms, findings)
  {
    hide Sort, AffectingCodes, IsFindingCode, Increasing;
    var affecting, codes, listed := AffectingCodes(findings), ConsequentialCodes(findings), Sort(terms.codes, StringLe);
    ConsequentialIncrease(findings);
    SortedAlike(terms.codes, affecting);
    SameElements(terms.codes, listed);
    assert (forall i :: 0 <= i < |listed| ==> IsFindingCode(listed[i])) <==>
           (forall i :: 0 <= i < |terms.codes| ==> IsFindingCode(terms.codes[i])) by {
      AllAlike(listed, terms.codes);
    }
    SameLength(terms.codes, listed);
  }

  lemma AllAlike(a: seq<string>, b: seq<string>)
    requires forall x :: x in a <==> x in b
    ensures (forall i :: 0 <= i < |a| ==> IsFindingCode(a[i])) <==> (forall i :: 0 <= i < |b| ==> IsFindingCode(b[i]))
  {
    hide IsFindingCode;
    assert forall i :: 0 <= i < |a| ==> a[i] in a;
    assert forall i :: 0 <= i < |b| ==> b[i] in b;
  }

  /** Exactly when an approval can be issued over a valid chain: approve for an
      approve decision without naming findings; an exception for another decision
      by naming each affecting finding once, at most 64 and well spelled. */
  lemma AssertionIsIssuedExactly(lib: Library, files: Artifacts, terms: Terms, sign: Assertion -> string)
    requires Chain(lib, files).Some? && ParseReview(lib, files.result).Some?
    ensures var (p, v, _) := Chain(lib, files).value;
            CreateAssertion(lib, files, terms, sign).Some? <==>
              && Timely(terms, v)
              && if terms.action == ApproveAction then p.review.decision == Approve && terms.codes == []
                 else p.review.decision != Approve && Covers(terms, ParseReview(lib, files.result).value.findings)
  {
    hide ConsequentialCodes, ExceptionAccepted, Sort, Covers, UniqueCodes, SubjectOf;
    var findings := ParseReview(lib, files.result).value.findings;
    assert UniqueCodes(findings);
    ExceptionMeans(terms, findings);
    assert Chain(lib, files).value.2 == ConsequentialCodes(findings);
  }

  /** Signing with the private key answers to this public key. */
  ghost predicate Answers(lib: Library, sign: Assertion -> string, publicKey: string) {
    forall a: Assertion :: lib.signed(publicKey, a.(signature := sign(a)))
  }

  /** A key of the store that may sign under these terms. */
  predicate Serves(key: TrustedKey, terms: Terms) {
    && key.keyId == terms.keyId && key.authorityId == terms.authorityId && terms.action in key.allowed
    && key.validFrom <= terms.issuedAt && terms.expiresAt <= key.validUntil
  }

  lemma KeyServes(lib: Library, a: Assertion, terms: Terms, store: TrustStore, list: RevocationList)
    requires StoreAccepted(store.keys)
    requires a.keyId == terms.keyId && a.authorityId == terms.authorityId && a.action == terms.action
    requires a.issuedAt == terms.issuedAt && a.expiresAt == terms.expiresAt && a.revocationListId == terms.revocationListId
    requires forall k :: k in store.keys && k.keyId == terms.keyId ==> lib.signed(k.publicKey, a)
    ensures (&& CheckKey(lib, a, store, list).Ok?
             && var key := CheckKey(lib, a, store, list).value; key.validFrom <= a.issuedAt && a.expiresAt <= key.validUntil) <==>
              && store.revocationListId == list.listId == terms.revocationListId
              && exists key :: key in store.keys && Serves(key, terms)
    ensures CheckKey(lib, a, store, list).Ok? ==> CheckKey(lib, a, store, list).value.keyId == terms.keyId
  {
    hide FirstKey, Distinct;
    FirstKeyMeans(store.keys, a.keyId);
    FoundKeyHasId(store.keys, a.keyId);
  }

  /** The revocation list is fresh and does not revoke the key for this issue. */
  ghost predicate Unrevoked(terms: Terms, list: RevocationList, r: Request) {
    && -r.clockSkew <= r.checkedAt - list.updatedAt <= r.maxRevocationAge + r.clockSkew
    && forall e :: e in list.revoked && e.keyId == terms.keyId ==> e.mode == IssuedAtOrAfter && terms.issuedAt < e.revokedAt
  }

  lemma TimesServe(a: Assertion, key: TrustedKey, terms: Terms, list: RevocationList, r: Request)
    requires RevocationsAccepted(list.revoked) && key.keyId == terms.keyId
    requires a.issuedAt == terms.issuedAt && a.expiresAt == terms.expiresAt && a.issuedAt < a.expiresAt
    ensures CheckTimes(a, key, list, r).None? <==>
              && key.validFrom <= terms.issuedAt && terms.expiresAt <= key.validUntil
              && terms.issuedAt <= r.checkedAt + r.clockSkew && r.checkedAt < terms.expiresAt && Unrevoked(terms, list, r)
  {
    hide FirstRevocation, Distinct;
    FirstRevocationMeans(list.revoked, key.keyId);
    FoundRevocationHasId(list.revoked, key.keyId);
  }

  /** An issued approval is accepted exactly when a trusted key serves its terms
      and is not revoked, the time of the check fits, and the build, its target
      and the report are still those of the publication. */
  lemma IssuedApprovalVerifies(lib: Library, assertion: Bytes, files: Artifacts, terms: Terms, sign: Assertion -> string,
                               store: TrustStore, list: RevocationList, r: Request)
    requires CreateAssertion(lib, files, terms, sign).Some? && 1 <= |assertion| <= MAX_DOCUMENT_BYTES
    requires lib.decodeAssertion(assertion) == CreateAssertion(lib, files, terms, sign)
    requires StoreAccepted(store.keys) && RevocationsAccepted(list.revoked)
    requires forall k :: k in store.keys && k.keyId == terms.keyId ==> Answers(lib, sign, k.publicKey)
    ensures Chain(lib, files).Some?
    ensures var p := Chain(lib, files).value.0;
            Verify(lib, assertion, files, store, list, r).Ok? <==>
              && 0 <= r.maxRevocationAge <= 2_678_400 && 0 <= r.clockSkew <= 3_600
              && store.revocationListId == list.listId == terms.revocationListId
              && (exists key :: key in store.keys && Serves(key, terms))
              && terms.issuedAt <= r.checkedAt + r.clockSkew && r.checkedAt < terms.expiresAt && Unrevoked(terms, list, r)
              && r.tfvc == p.tfvc && r.build == p.build
              && SubjectOf(lib, files.report) == p.report && ReportAccepted(lib, files.report, p.review)
  {
    hide FirstKey, CheckKey, CheckTimes, ReceiptFor, Chain, ExceptionAccepted, Sort, StoreAccepted, RevocationsAccepted, Unrevoked,
      Answers, ReportAccepted, Serves;
    var a := CreateAssertion(lib, files, terms, sign).value;
    var draft := Draft(lib, files, terms);
    assert AssertionAccepted(draft) && a == draft.(signature := sign(draft));
    assert ParseAssertion(lib, assertion) == Some(a);
    forall k | k in store.keys && k.keyId == terms.keyId ensures lib.signed(k.publicKey, a) {
      SignedByKey(lib, sign, k.publicKey, draft);
    }
    KeyServes(lib, a, terms, store, list);
    if CheckKey(lib, a, store, list).Ok? {
      TimesServe(a, CheckKey(lib, a, store, list).value, terms, list, r);
    }
    ReceiptReproduces(lib, files, r.tfvc, r.build);
  }

  lemma SignedByKey(lib: Library, sign: Assertion -> string, publicKey: string, draft: Assertion)
    requires Answers(lib, sign, publicKey)
    ensures lib.signed(publicKey, draft.(signature := sign(draft)))
  {
  }

  /** In a valid chain the receipt is what verifying the publication again at the
      time of the receipt gives, exactly for the same target, build and report. */
  lemma ReceiptReproduces(lib: Library, files: Artifacts, tfvc: string, build: Build)
    requires Chain(lib, files).Some?
    ensures var (p, v, _) := Chain(lib, files).value;
            && (ReceiptFor(lib, files, tfvc, build, v.verifiedAt, v.maximumAge).Some? <==>
                  && tfvc == p.tfvc && build == p.build
                  && SubjectOf(lib, files.report) == p.report && ReportAccepted(lib, files.report, p.review))
            && (ReceiptFor(lib, files, tfvc, build, v.verifiedAt, v.maximumAge).Some? ==>
                  ReceiptFor(lib, files, tfvc, build, v.verifiedAt, v.maximumAge) == Some(v))
  {
    hide ConsequentialCodes, UniqueCodes;
  }

  /** Exactly what is published: a review read from its file, with a report that
      fits it, for a target that fits, from one second before it to 300 after. */
  lemma PublicationIsExact(lib: Library, result: Bytes, report: Bytes, tfvc: string, build: Build, createdAt: int, p: Publication)
    ensures CreatePublication(lib, result, report, tfvc, build, createdAt) == Some(p) <==>
              && 1 <= |result| <= 5_242_880 && lib.decodeReview(result).Some?
              && (forall i, j :: 0 <= i < j < |lib.decodeReview(result).value.findings| ==>
                    lib.decodeReview(result).value.findings[i].code != lib.decodeReview(result).value.findings[j].code)
              && p.review == lib.decodeReview(result).value.binding && p.createdAt == createdAt
              && -1.0 <= createdAt as real - p.review.reviewedAt <= 300.0
              && p.tfvc == tfvc && p.build == build && lib.targetFits(tfvc, build)
              && 1 <= |report| <= 2_097_152 && lib.reportFits(report, p.review)
              && p.result == Subject(lib.sha256(result), |result|) && p.report == Subject(lib.sha256(report), |report|)
  {
    var gap := createdAt as real - p.review.reviewedAt;
    assert gap < -1.0 || gap > 300.0 <==> !(-1.0 <= gap <= 300.0);
  }

  /** From publication to chain: a publication just created is verified exactly
      within its maximum age for its own target and build, and the receipt then
      forms a valid chain with the artifacts. */
  lemma PublicationIsVerified(lib: Library, files: Artifacts, tfvc: string, build: Build, createdAt: int,
                              tfvc': string, build': Build, verifiedAt: int, maximumAge: int)
    requires CreatePublication(lib, files.result, files.report, tfvc, build, createdAt).Some?
    requires 1 <= |files.publication| <= MAX_DOCUMENT_BYTES && 1 <= |files.receipt| <= MAX_DOCUMENT_BYTES
    requires lib.decodePublication(files.publication) == CreatePublication(lib, files.result, files.report, tfvc, build, createdAt)
    ensures var receipt := ReceiptFor(lib, files, tfvc', build', verifiedAt, maximumAge);
            && (receipt.Some? <==>
                  && 1 <= maximumAge <= 86_400 && createdAt <= verifiedAt <= createdAt + maximumAge
                  && tfvc' == tfvc && build' == build)
            && (receipt.Some? && lib.decodeReceipt(files.receipt) == receipt ==>
                  && Chain(lib, files).Some?
                  && Chain(lib, files).value.0 == lib.decodePublication(files.publication).value
                  && Chain(lib, files).value.1 == receipt.value)
  {
    hide ConsequentialCodes, UniqueCodes;
  }

  // ---------------------------------------------------------------- the window is reached

  function Answer<T>(key: Bytes, value: T): Bytes -> Option<T> {
    x => if x == key then Some(value) else None
  }

  function LatestReview(): ReviewBinding { ReviewBinding("case", 0.0, Approve) }

  function LatestPublication(): Publication {
    Publication(300, LatestReview(), "t", Build(1, "b"), Subject("r", 1), Subject("m", 1))
  }

  function LatestReceipt(): Receipt {
    Receipt(86_700, 86_400, 86_400, Subject("p", 1), LatestReview(), "t", 1, Subject("r", 1), Subject("m", 1))
  }

  function LatestAssertion(): Assertion {
    Assertion("authority", "key", ApproveAction, 86_700, 86_700, 173_100, Subject("p", 1), Subject("v", 1), None, "list", "s")
  }

  /** The identity stands in for the digest: it has no collisions. */
  function LatestLibrary(): Library {
    Library(x => x, Answer("a", LatestAssertion()), Answer("p", LatestPublication()), Answer("v", LatestReceipt()),
            Answer("r", ReviewResult(LatestReview(), [])), (x, y) => true, (x, y) => true, (x, y) => true)
  }

  /** The bound of the window is the best possible: in whole seconds an approval
      can be accepted 173,099 seconds after its review. */
  lemma WindowIsReached()
    ensures var lib, files := LatestLibrary(), Artifacts("p", "v", "r", "m");
            var store := TrustStore("list", [TrustedKey("key", "authority", "k", 0, 173_100, {ApproveAction})]);
            var list := RevocationList("list", 173_099, []);
            var r := Request("t", Build(1, "b"), 173_099, 0, 0);
            && Verify(lib, "a", files, store, list, r) == Ok(LatestAssertion())
            && r.checkedAt as real - LatestPublication().review.reviewedAt == 173_099.0
  {
    var lib, files := LatestLibrary(), Artifacts("p", "v", "r", "m");
    assert ParsePublication(lib, "p") == Some(LatestPublication());
    assert ParseReceipt(lib, "v") == Some(LatestReceipt());
    assert ParseReview(lib, "r") == Some(ReviewResult(LatestReview(), []));
    assert ParseAssertion(lib, "a") == Some(LatestAssertion());
    assert SubjectOf(lib, "p") == Subject("p", 1) && SubjectOf(lib, "v") == Subject("v", 1);
    assert SubjectOf(lib, "r") == Subject("r", 1) && SubjectOf(lib, "m") == Subject("m", 1);
    assert Chain(lib, files) == Some((LatestPublication(), LatestReceipt(), ConsequentialCodes([])));
    assert ReceiptFor(lib, files, "t", Build(1, "b"), 86_700, 86_400) == Some(LatestReceipt());
  }
}
