/** Exactly what verify_approval_assertion of src/causure/approvals.py accepts,
    spelled over the decoded documents. */
module ApprovalRules {
  import opened Vocabulary
  import opened Sorting
  import opened Approval

  /** The publication, the receipt and the result are one chain: decoded from
      files of permitted size, about the same review, target, build and files,
      and verified within the receipt's maximum age. */
  ghost predicate OneChain(lib: Library, files: Artifacts, p: Publication, v: Receipt, review: ReviewResult) {
    && 1 <= |files.publication| <= 1_048_576 && lib.decodePublication(files.publication) == Some(p)
    && 1 <= |files.receipt| <= 1_048_576 && lib.decodeReceipt(files.receipt) == Some(v)
    && 1 <= |files.result| <= 5_242_880 && lib.decodeReview(files.result) == Some(review)
    && (forall i, j :: 0 <= i < j < |review.findings| ==> review.findings[i].code != review.findings[j].code)
    && review.binding == p.review && v.review == p.review
    && v.tfvc == p.tfvc && v.buildId == p.build.buildId && lib.targetFits(p.tfvc, p.build)
    && v.publication == Subject(lib.sha256(files.publication), |files.publication|)
    && p.result == Subject(lib.sha256(files.result), |files.result|) && v.result == p.result && v.report == p.report
    && -1.0 <= p.createdAt as real - p.review.reviewedAt <= 300.0
    && p.createdAt <= v.verifiedAt && v.age == v.verifiedAt - p.createdAt && v.age <= v.maximumAge && 1 <= v.maximumAge <= 86_400
  }

  /** The chain check passes exactly on such documents, and gives them back. */
  lemma ChainIsExact(lib: Library, files: Artifacts, p: Publication, v: Receipt, review: ReviewResult)
    ensures OneChain(lib, files, p, v, review) <==>
              && Chain(lib, files).Some? && Chain(lib, files).value.0 == p && Chain(lib, files).value.1 == v
              && ParseReview(lib, files.result) == Some(review)
    ensures OneChain(lib, files, p, v, review) ==> Chain(lib, files) == Some((p, v, ConsequentialCodes(review.findings)))
  {
    hide ConsequentialCodes;
  }

  /** The report and the request belong to the publication. */
  ghost predicate Requested(lib: Library, files: Artifacts, p: Publication, r: Request) {
    && p.tfvc == r.tfvc && p.build == r.build
    && p.report == Subject(lib.sha256(files.report), |files.report|)
    && 1 <= |files.report| <= 2_097_152 && lib.reportFits(files.report, p.review)
  }

  /** A letter or digit, then 2 to 127 letters, digits, dots, underscores and hyphens. */
  ghost predicate SpelledCode(code: string) {
    exists first, rest: string :: code == [first] + rest && IsWordChar(first) && 2 <= |rest| <= 127 && IsCodeText(rest)
  }

  predicate IsCodeText(s: string) {
    forall c :: c in s ==> IsWordChar(c) || c in {'.', '_', '-'}
  }

  predicate IsWordChar(c: char) {
    48 <= c as int <= 57 || 65 <= c as int <= 90 || 97 <= c as int <= 122
  }

  lemma CodeSpelled(code: string)
    ensures IsFindingCode(code) <==> SpelledCode(code)
  {
    if IsFindingCode(code) {
      assert code == [code[0]] + code[1..];
      forall c | c in code[1..] ensures IsWordChar(c) || c in {'.', '_', '-'} {
        var i :| 0 <= i < |code[1..]| && code[1..][i] == c;
        assert code[i + 1] == c;
      }
    }
    if first, rest: string :| code == [first] + rest && IsWordChar(first) && 2 <= |rest| <= 127 && IsCodeText(rest) {
      assert forall i :: 0 < i < |code| ==> code[i] == rest[i - 1] && rest[i - 1] in rest;
    }
  }

  /** The codes are those of the affecting findings, each once, in order, at most 64. */
  ghost predicate NamesAffecting(codes: seq<string>, findings: seq<ResultFinding>) {
    && 1 <= |codes| <= 64 && (forall i :: 0 <= i < |codes| ==> SpelledCode(codes[i]))
    && (forall i, j :: 0 <= i < j < |codes| ==> StringLess(codes[i], codes[j]))
    && forall code :: code in codes <==> AffectsUnder(findings, code)
  }

  /** The approval follows the receipt within a day and covers the decision. */
  ghost predicate Covering(a: Assertion, p: Publication, v: Receipt, review: ReviewResult) {
    && v.verifiedAt <= a.authenticatedAt <= v.verifiedAt + 86_400
    && a.authenticatedAt <= a.issuedAt <= a.authenticatedAt + 900
    && a.issuedAt < a.expiresAt <= v.verifiedAt + 86_400
    && if a.action == ApproveAction then p.review.decision == Approve && a.exceptedCodes == None
       else p.review.decision != Approve && a.exceptedCodes.Some? && NamesAffecting(a.exceptedCodes.value, review.findings)
  }

  lemma AscendingMeans(s: seq<string>)
    ensures Increasing(s) <==> forall i, j :: 0 <= i < j < |s| ==> StringLess(s[i], s[j])
  {
  }

  lemma NamedExactly(codes: seq<string>, findings: seq<ResultFinding>)
    requires UniqueCodes(findings)
    ensures NamesAffecting(codes, findings) <==>
              ExceptionAccepted(codes) && ConsequentialCodes(findings) != [] && codes == ConsequentialCodes(findings)
  {
    hide ConsequentialCodes, AffectsUnder, IsFindingCode, SpelledCode, Increasing;
    forall i | 0 <= i < |codes| ensures IsFindingCode(codes[i]) <==> SpelledCode(codes[i]) { CodeSpelled(codes[i]); }
    var expected := ConsequentialCodes(findings);
    AscendingMeans(codes);
    ConsequentialIncrease(findings);
    forall code ensures code in expected <==> AffectsUnder(findings, code) { ConsequentialMeans(findings, code); }
    if NamesAffecting(codes, findings) { IncreasingUnique(codes, expected); }
  }

  lemma ScopeIsExact(a: Assertion, p: Publication, v: Receipt, review: ReviewResult)
    requires UniqueCodes(review.findings)
    ensures AssertionAccepted(a) && ScopeAccepted(a, p, v, ConsequentialCodes(review.findings)) <==> Covering(a, p, v, review)
  {
    hide ConsequentialCodes, NamesAffecting, ExceptionAccepted, UniqueCodes;
    if a.exceptedCodes.Some? { NamedExactly(a.exceptedCodes.value, review.findings); }
  }

  /** A key of the store signed the approval and was allowed and valid to. */
  lemma KeyIsExact(lib: Library, a: Assertion, store: TrustStore, list: RevocationList)
    requires StoreAccepted(store.keys)
    ensures (&& CheckKey(lib, a, store, list).Ok?
             && var key := CheckKey(lib, a, store, list).value; key.validFrom <= a.issuedAt && a.expiresAt <= key.validUntil) <==>
              && store.revocationListId == list.listId == a.revocationListId
              && exists key :: key in store.keys && MayGive(lib, key, a)
    ensures CheckKey(lib, a, store, list).Ok? ==> CheckKey(lib, a, store, list).value.keyId == a.keyId
  {
    hide FirstKey, Distinct;
    FirstKeyMeans(store.keys, a.keyId);
    FoundKeyHasId(store.keys, a.keyId);
  }

  function TermsOf(a: Assertion): Terms {
    Terms(a.authorityId, a.keyId, a.revocationListId, a.action, a.authenticatedAt, a.issuedAt, a.expiresAt, [])
  }

  lemma ArtifactsAreExact(lib: Library, a: Assertion, files: Artifacts, r: Request)
    ensures AssertionAccepted(a) && CheckChain(lib, a, files, r).None? <==>
              && a.publication == Subject(lib.sha256(files.publication), |files.publication|)
              && a.receipt == Subject(lib.sha256(files.receipt), |files.receipt|)
              && exists p, v, review :: OneChain(lib, files, p, v, review) && Requested(lib, files, p, r) && Covering(a, p, v, review)
  {
    hide ConsequentialCodes, Chain, OneChain, Covering, ScopeAccepted, AssertionAccepted, ReceiptFor;
    if Chain(lib, files).Some? {
      var (p, v, codes) := Chain(lib, files).value;
      var review := ParsedReview(lib, files);
      ChainIsExact(lib, files, p, v, review);
      ReceiptReproduces(lib, files, r.tfvc, r.build);
      ScopeIsExact(a, p, v, review);
      forall p', v', review' | OneChain(lib, files, p', v', review') ensures p' == p && v' == v && review' == review {
        ChainIsExact(lib, files, p', v', review');
      }
    } else {
      forall p', v', review' ensures !OneChain(lib, files, p', v', review') {
        ChainIsExact(lib, files, p', v', review');
      }
    }
  }

  lemma ParsedReview(lib: Library, files: Artifacts) returns (review: ReviewResult)
    requires Chain(lib, files).Some?
    ensures ParseReview(lib, files.result) == Some(review) && UniqueCodes(review.findings)
  {
    hide ConsequentialCodes, UniqueCodes;
    review := ParseReview(lib, files.result).value;
  }

  /** With parsed keys and revocations an approval is accepted exactly when it
      decodes, the request is sensible, a trusted key of the named list signed it
      and is neither out of its time nor revoked, the check falls into the
      approval's life, and it names these very files, which form one chain that
      belongs to the request and whose decision it covers. */
  lemma VerifyIsExact(lib: Library, assertion: Bytes, files: Artifacts, store: TrustStore, list: RevocationList, r: Request, a: Assertion)
    requires StoreAccepted(store.keys) && RevocationsAccepted(list.revoked)
    ensures Verify(lib, assertion, files, store, list, r) == Ok(a) <==>
              && 1 <= |assertion| <= 1_048_576 && lib.decodeAssertion(assertion) == Some(a)
              && 0 <= r.maxRevocationAge <= 2_678_400 && 0 <= r.clockSkew <= 3_600
              && store.revocationListId == list.listId == a.revocationListId
              && (exists key :: key in store.keys && MayGive(lib, key, a))
              && a.issuedAt <= r.checkedAt + r.clockSkew && r.checkedAt < a.expiresAt
              && -r.clockSkew <= r.checkedAt - list.updatedAt <= r.maxRevocationAge + r.clockSkew
              && (forall e :: e in list.revoked && e.keyId == a.keyId ==> e.mode == IssuedAtOrAfter && a.issuedAt < e.revokedAt)
              && a.publication == Subject(lib.sha256(files.publication), |files.publication|)
              && a.receipt == Subject(lib.sha256(files.receipt), |files.receipt|)
              && exists p, v, review :: OneChain(lib, files, p, v, review) && Requested(lib, files, p, r) && Covering(a, p, v, review)
  {
    hide CheckChain, CheckKey, CheckTimes, OneChain, Requested, StoreAccepted, RevocationsAccepted, ExceptionAccepted, NamesAffecting;
    ArtifactsAreExact(lib, a, files, r);
    KeyIsExact(lib, a, store, list);
    if CheckKey(lib, a, store, list).Ok? && a.issuedAt < a.expiresAt {
      TimesServe(a, CheckKey(lib, a, store, list).value, TermsOf(a), list, r);
    }
  }
}
