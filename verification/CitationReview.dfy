/**
 The citation review of a draft: approvals are set aside, the remaining claims are batched and reviewed in
 waves of two, and nothing partial escapes a failed wave.
 */
module CitationReview {
  import opened Wrappers
  import opened EvidenceAudit
  import opened AuditSplit
  import opened Batching
  import opened Sequences

  /** What a paid review call came to: its audit, or any of the exceptions it may raise. */
  datatype Reply = Answered(audit: seq<ClaimAudit>) | Refused

  const WAVE := 2

  /** A batch of claims of the draft, in its order. */
  predicate GoodBatch(claims: seq<Claim>, batch: seq<Claim>) {
    batch != [] && Increasing(Ids(batch)) && forall c :: c in batch ==> c in claims
  }

  predicate GoodBatches(claims: seq<Claim>, batches: seq<seq<Claim>>) {
    forall i :: 0 <= i < |batches| ==> GoodBatch(claims, batches[i])
  }

  function BatchError(batch: seq<Claim>, reply: Reply, available: Available): Option<AuditError> {
    if reply.Refused? then Some(Unavailable)
    else
      match Review(batch, reply.audit, available)
      case Failure(e) => Some(e)
      case Success(_) => None
  }

  predicate HasError(wave: seq<seq<Claim>>, ask: seq<int> -> Reply, available: Available, e: AuditError) {
    exists i :: 0 <= i < |wave| && BatchError(wave[i], ask(Ids(wave[i])), available) == Some(e)
  }

  /** A failure of the service or of the review itself outweighs criticism of the draft. */
  function WaveError(wave: seq<seq<Claim>>, ask: seq<int> -> Reply, available: Available): Option<AuditError> {
    if HasError(wave, ask, available, Unavailable) then Some(Unavailable)
    else if HasError(wave, ask, available, Integrity) then Some(Integrity)
    else if HasError(wave, ask, available, Rejected) then Some(Rejected)
    else None
  }

  predicate AnyRefused(wave: seq<seq<Claim>>, ask: seq<int> -> Reply, n: nat)
    requires n <= |wave|
  {
    exists j :: 0 <= j < n && ask(Ids(wave[j])).Refused?
  }

  predicate Answers(wave: seq<seq<Claim>>, ask: seq<int> -> Reply, audits: seq<seq<ClaimAudit>>, n: nat)
    requires n <= |wave|
  {
    |audits| == n && forall j :: 0 <= j < n ==> ask(Ids(wave[j])) == Answered(audits[j])
  }

  predicate AnyFails(wave: seq<seq<Claim>>, audits: seq<seq<ClaimAudit>>, available: Available, n: nat, e: AuditError)
    requires n <= |wave| && n <= |audits|
  {
    exists j :: 0 <= j < n && Review(wave[j], audits[j], available) == Failure(e)
  }

  /** Joins every started call of a wave. */
  method AskWave(wave: seq<seq<Claim>>, ask: seq<int> -> Reply) returns (r: Option<seq<seq<ClaimAudit>>>)
    ensures r.None? <==> AnyRefused(wave, ask, |wave|)
    ensures r.Some? ==> Answers(wave, ask, r.value, |wave|)
  {
    var refused, completed := false, [];
    for i := 0 to |wave|
      invariant refused <==> AnyRefused(wave, ask, i)
      invariant !refused ==> Answers(wave, ask, completed, i)
    {
      match ask(Ids(wave[i])) {
        case Refused => refused := true;
        case Answered(audit) => completed := completed + [audit];
      }
    }
    return if refused then None else Some(completed);
  }

  /** Validates every answer of a wave before judging any: `integrity` outweighs `rejected`. */
  method ValidateWave(claims: seq<Claim>, wave: seq<seq<Claim>>, audits: seq<seq<ClaimAudit>>, available: Available)
    returns (error: Option<AuditError>)
    requires Numbered(claims) && GoodBatches(claims, wave) && |audits| == |wave|
    ensures error == if AnyFails(wave, audits, available, |wave|, Integrity) then Some(Integrity)
                     else if AnyFails(wave, audits, available, |wave|, Rejected) then Some(Rejected) else None
  {
    hide Review;
    var integrity, rejected := false, false;
    for i := 0 to |wave|
      invariant integrity <==> AnyFails(wave, audits, available, i, Integrity)
      invariant rejected <==> AnyFails(wave, audits, available, i, Rejected)
    {
      RequestIsAnswered(claims, wave[i]);
      ReviewErrors(wave[i], audits[i], available);
      match Validate(claims, Ids(wave[i]), audits[i], available) {
        case Failure(e) => if e == Rejected { rejected := true; } else { integrity := true; }
        case Success(_) =>
      }
    }
    return if integrity then Some(Integrity) else if rejected then Some(Rejected) else None;
  }

  lemma ReviewErrors(claims: seq<Claim>, audit: seq<ClaimAudit>, available: Available)
    ensures Review(claims, audit, available).Failure?
            ==> Review(claims, audit, available).error in [Integrity, Rejected]
  {
  }

  lemma NothingFails(wave: seq<seq<Claim>>, audits: seq<seq<ClaimAudit>>, available: Available)
    requires |audits| == |wave|
    requires !AnyFails(wave, audits, available, |wave|, Integrity)
             && !AnyFails(wave, audits, available, |wave|, Rejected)
    ensures EachAccepted(wave, audits, available)
  {
    hide Review;
    forall i | 0 <= i < |wave| ensures Review(wave[i], audits[i], available).Success? {
      ReviewErrors(wave[i], audits[i], available);
    }
  }

  /** With every call answered, the errors of a wave are those of its reviews. */
  lemma WaveErrors(wave: seq<seq<Claim>>, ask: seq<int> -> Reply, audits: seq<seq<ClaimAudit>>, available: Available,
                   e: AuditError)
    requires Answers(wave, ask, audits, |wave|)
    ensures HasError(wave, ask, available, e) <==> AnyFails(wave, audits, available, |wave|, e)
    ensures !HasError(wave, ask, available, Unavailable)
  {
    forall j | 0 <= j < |wave|
      ensures BatchError(wave[j], ask(Ids(wave[j])), available) == Some(e)
              <==> Review(wave[j], audits[j], available) == Failure(e)
      ensures BatchError(wave[j], ask(Ids(wave[j])), available) != Some(Unavailable)
    {
      ReviewErrors(wave[j], audits[j], available);
    }
    hide Review;
    hide BatchError;
  }

  /** The calls of one wave, then the validation of every answer. */
  method ReviewWave(claims: seq<Claim>, wave: seq<seq<Claim>>, ask: seq<int> -> Reply, available: Available)
    returns (r: Result<seq<seq<ClaimAudit>>, AuditError>)
    requires Numbered(claims) && GoodBatches(claims, wave)
    ensures r.Failure? ==> WaveError(wave, ask, available) == Some(r.error)
    ensures r.Success? ==> EachAccepted(wave, r.value, available) && Answers(wave, ask, r.value, |wave|)
  {
    var completed := AskWave(wave, ask);
    if completed.None? {
      var j :| 0 <= j < |wave| && ask(Ids(wave[j])).Refused?;
      assert BatchError(wave[j], ask(Ids(wave[j])), available) == Some(Unavailable);
      return Failure(Unavailable);
    }
    WaveErrors(wave, ask, completed.value, available, Integrity);
    WaveErrors(wave, ask, completed.value, available, Rejected);
    var error := ValidateWave(claims, wave, completed.value, available);
    hide BatchError;
    hide HasError;
    if error.Some? { return Failure(error.value); }
    NothingFails(wave, completed.value, available);
    return Success(completed.value);
  }

  // ---- All waves ----

  function WaveAt(batches: seq<seq<Claim>>, start: nat): seq<seq<Claim>>
    requires start <= |batches|
  {
    batches[start..if start + WAVE <= |batches| then start + WAVE else |batches|]
  }

  lemma AcceptedConcat(a: seq<seq<Claim>>, auditsA: seq<seq<ClaimAudit>>, b: seq<seq<Claim>>,
                       auditsB: seq<seq<ClaimAudit>>,
                       ask: seq<int> -> Reply, available: Available)
    requires EachAccepted(a, auditsA, available) && EachAccepted(b, auditsB, available)
    requires Answers(a, ask, auditsA, |a|) && Answers(b, ask, auditsB, |b|)
    ensures EachAccepted(a + b, auditsA + auditsB, available) && Answers(a + b, ask, auditsA + auditsB, |a + b|)
  {
    hide Review;
  }

  /** Either every batch is answered and accepted, or the first wave with an error stops the review there. */
  method ReviewWaves(claims: seq<Claim>, batches: seq<seq<Claim>>, ask: seq<int> -> Reply, available: Available)
    returns (r: Result<seq<seq<ClaimAudit>>, AuditError>, start: nat)
    requires Numbered(claims) && GoodBatches(claims, batches)
    ensures r.Success? ==> EachAccepted(batches, r.value, available) && Answers(batches, ask, r.value, |batches|)
    ensures r.Failure? ==> start < |batches| && start % WAVE == 0
                           && WaveError(WaveAt(batches, start), ask, available) == Some(r.error)
                           && forall i :: 0 <= i < start ==>
                               BatchError(batches[i], ask(Ids(batches[i])),
                               available).None?
  {
    hide Review;
    var audits := [];
    start := 0;
    while start < |batches|
      invariant 0 <= start <= |batches| && (start == |batches| || start % WAVE == 0)
      invariant EachAccepted(batches[..start], audits, available) && Answers(batches[..start], ask, audits, start)
    {
      var wave := WaveAt(batches, start);
      var reviewed := ReviewWave(claims, wave, ask, available);
      if reviewed.Failure? {
        AcceptedHaveNoError(batches[..start], audits, ask, available);
        assert forall i :: 0 <= i < start ==> batches[..start][i] == batches[i];
        return Failure(reviewed.error), start;
      }
      AcceptedConcat(batches[..start], audits, wave, reviewed.value, ask, available);
      assert batches[..start] + wave == batches[..start + |wave|];
      audits := audits + reviewed.value;
      start := start + |wave|;
    }
    assert batches[..start] == batches;
    return Success(audits), start;
  }

  lemma AcceptedHaveNoError(batches: seq<seq<Claim>>, audits: seq<seq<ClaimAudit>>, ask: seq<int> -> Reply,
                            available: Available)
    requires EachAccepted(batches, audits, available) && Answers(batches, ask, audits, |batches|)
    ensures forall i :: 0 <= i < |batches| ==> BatchError(batches[i], ask(Ids(batches[i])), available).None?
  {
    hide Review;
  }

  // ---- The draft ----

  function UnitsOf(claim: Claim): nat {
    |claim.units|
  }

  lemma IncreasingParts(a: seq<Claim>, b: seq<Claim>)
    requires Increasing(Ids(a + b))
    ensures Increasing(Ids(a)) && Increasing(Ids(b))
  {
    assert forall i :: 0 <= i < |a| ==> Ids(a)[i] == Ids(a + b)[i];
    assert forall i :: 0 <= i < |b| ==> Ids(b)[i] == Ids(a + b)[|a| + i];
  }

  lemma {:induction false} BatchesAreGood(claims: seq<Claim>, part: seq<Claim>, batches: seq<seq<Claim>>,
                                          ok: seq<Claim> -> bool)
    requires Increasing(Ids(part)) && (forall c :: c in part ==> c in claims) && Partition(part, batches, ok)
    ensures GoodBatches(claims, batches)
    decreases |batches|
  {
    hide Increasing;
    if batches != [] {
      var first, rest := batches[0], Flatten(batches[1..]);
      assert part == first + rest;
      IncreasingParts(first, rest);
      BatchesAreGood(claims, rest, batches[1..], ok);
      assert GoodBatch(claims, first);
      hide GoodBatch;
      forall i | 0 <= i < |batches| ensures GoodBatch(claims, batches[i]) {
        if i > 0 { assert batches[i] == batches[1..][i - 1]; }
      }
    }
  }

  /** Citations that a draft may carry: one to three distinct available sources for every claim. */
  predicate Citable(claims: seq<Claim>, citations: seq<seq<int>>, available: Available) {
    |citations| == |claims| && forall i :: 0 <= i < |citations| ==> CitableClaim(citations[i], available)
  }

  predicate CitableClaim(ids: seq<int>, available: Available) {
    1 <= |ids| <= MAX_CITATIONS && NoRepeats(ids) && forall id :: id in ids ==> id in available
  }

  lemma AcceptedIsCitable(claims: seq<Claim>, audit: seq<ClaimAudit>, available: Available)
    requires Review(claims, audit, available).Success?
    ensures Citable(claims, Review(claims, audit, available).value, available)
  {
    var c := Review(claims, audit, available).value;
    assert |c| == |claims|;
    forall i | 0 <= i < |c| ensures CitableClaim(c[i], available) { AcceptedCitations(claims, audit, available, i); }
  }

  /** The final audit comes from the approvals and from the answers of the batches, and from nothing else. */
  ghost predicate Assembled(claims: seq<Claim>, approved: seq<ClaimAudit>, batches: seq<seq<Claim>>,
                            ask: seq<int> -> Reply,
                            available: Available, citations: seq<seq<int>>)
    requires Numbered(claims)
  {
    exists answers :: Answers(batches, ask, answers, |batches|) && EachAccepted(batches, answers, available)
      && Flatten(batches) == Select(claims, AuditIds(approved), false)
      && ProvenParts(claims, approved, Flatten(answers), available, citations)
  }

  /** Each claim is proved by its audit in its part, and cites the sources that this audit mentions. */
  ghost predicate ProvenParts(claims: seq<Claim>, approved: seq<ClaimAudit>, reviewed: seq<ClaimAudit>,
                              available: Available, citations: seq<seq<int>>) {
    var parts, audits := Parts(claims, approved), approved + reviewed;
    |audits| == |parts| && forall p :: 0 <= p < |parts| ==> ProvenPart(parts[p], audits[p], available, citations)
  }

  ghost predicate ProvenPart(claim: Claim, a: ClaimAudit, available: Available, citations: seq<seq<int>>) {
    1 <= claim.id <= |citations| && ProvenBy(claim, a, available, citations[claim.id - 1])
  }

  lemma MergeCites(claims: seq<Claim>, cited: seq<seq<int>>, approved: seq<ClaimAudit>, reviewed: seq<ClaimAudit>,
                   available: Available)
    requires Numbered(claims) && |cited| == |claims|
             && MergeAudits(claims, cited, approved, reviewed, available).Success?
    ensures var merged := MergeAudits(claims, cited, approved, reviewed, available).value;
            Review(claims, merged, available).Success?
            && ProvenParts(claims, approved, reviewed, available, Review(claims, merged, available).value)
  {
    var merged := MergeAudits(claims, cited, approved, reviewed, available).value;
    assert Review(claims, merged, available).Success?;
    var parts, audits := Parts(claims, approved), approved + reviewed;
    var ids := AuditIds(approved);
    SameIds(Pick(claims, ids), approved);
    SameIds(Select(claims, ids, false), reviewed);
    forall p | 0 <= p < |parts|
      ensures ProvenPart(parts[p], audits[p], available, Review(claims, merged, available).value)
    {
      MergedCitations(claims, cited, approved, reviewed, available, p);
      hide Review;
      hide MergeAudits;
      hide ProvenBy;
    }
  }

  lemma {:induction false} SelectAll(claims: seq<Claim>)
    ensures Select(claims, [], false) == claims && Select(claims, [], true) == []
  {
    if claims != [] {
      SelectAll(claims[..|claims| - 1]);
      assert claims == claims[..|claims| - 1] + [claims[|claims| - 1]];
    }
  }

  lemma ReviewedIds(claims: seq<Claim>, audit: seq<ClaimAudit>, available: Available)
    requires Review(claims, audit, available).Success?
    ensures |audit| == |claims| && Review(claims, audit, available).value == Citations(audit)
    ensures forall p :: 0 <= p < |claims| ==> audit[p].claimId == claims[p].id
  {
    assert forall i :: 0 <= i < |claims| ==> ClaimIntegral(claims[i], audit[i], available);
    hide AllClean;
    hide WellFormed;
  }

  lemma WholeParts(claims: seq<Claim>, audit: seq<ClaimAudit>)
    ensures Select(claims, AuditIds([]), false) == claims && Parts(claims, []) == claims && [] + audit == audit
  {
    assert AuditIds([]) == [];
    SelectAll(claims);
  }

  lemma WholeCites(claims: seq<Claim>, audit: seq<ClaimAudit>, available: Available)
    requires Numbered(claims) && Review(Select(claims, AuditIds([]), false), audit, available).Success?
    ensures Review(claims, audit, available).Success?
            && ProvenParts(claims, [], audit, available, Review(claims, audit, available).value)
  {
    hide Review;
    hide Select;
    hide Parts;
    hide AuditIds;
    WholeParts(claims, audit);
    ReviewedIds(claims, audit, available);
    forall p | 0 <= p < |claims| ensures ProvenPart(claims[p], audit[p], available, Citations(audit)) {
      assert claims[p].id == p + 1;
      AcceptedCitations(claims, audit, available, p);
      hide ProvenBy;
    }
  }

  /** Merges the answers with the approvals, if any, and reviews the result as a whole. */
  method FinishReview(claims: seq<Claim>, cited: seq<seq<int>>, approved: seq<ClaimAudit>, reviewed: seq<ClaimAudit>,
                      available: Available)
    returns (r: Result<seq<seq<int>>, AuditError>)
    requires Numbered(claims) && |cited| == |claims|
    requires Review(Select(claims, AuditIds(approved), false), reviewed, available).Success?
    ensures r.Success? <==> approved == [] || MergeAudits(claims, cited, approved, reviewed, available).Success?
    ensures r.Failure? ==> r.error == MergeAudits(claims, cited, approved, reviewed, available).error
    ensures r.Success? ==>
              Citable(claims, r.value, available) && ProvenParts(claims, approved, reviewed, available, r.value)
  {
    var audit := reviewed;
    if approved != [] {
      var merged := MergeAudits(claims, cited, approved, reviewed, available);
      if merged.Failure? { return Failure(merged.error); }
      MergeCites(claims, cited, approved, reviewed, available);
      audit := merged.value;
    } else {
      WholeCites(claims, reviewed, available);
    }
    AcceptedIsCitable(claims, audit, available);
    r := ReviewCitations(claims, audit, available);
  }

  // ---- When an answer is cleared ----

  /** Approvals name claims of the draft, each once and in order, and rest on their own citations. */
  ghost predicate ApprovalsMatch(claims: seq<Claim>, cited: seq<seq<int>>, approved: seq<ClaimAudit>) {
    WithinForm(approved) && InDraftOrder(claims, approved) && RestOnOwn(cited, approved)
  }

  /** Once the rest is accepted, the merge depends on the approvals alone. */
  lemma MergeOfAccepted(claims: seq<Claim>, cited: seq<seq<int>>, approved: seq<ClaimAudit>, reviewed: seq<ClaimAudit>,
                        available: Available)
    requires Numbered(claims) && |cited| == |claims|
    requires Review(Select(claims, AuditIds(approved), false), reviewed, available).Success?
    ensures var merged := MergeAudits(claims, cited, approved, reviewed, available);
            && (merged.Success? <==> ApprovalsMatch(claims, cited, approved)
                                     && Review(Pick(claims, AuditIds(approved)), approved, available).Success?)
            && (!ApprovalsMatch(claims, cited, approved) ==> merged == Failure(Integrity))
            && (merged.Failure? && ApprovalsMatch(claims, cited, approved) ==>
                  merged == Failure(Review(Pick(claims, AuditIds(approved)), approved, available).error))
  {
    var rest := Select(claims, AuditIds(approved), false);
    MergeSucceedsExactly(claims, cited, approved, reviewed, available);
    ReviewedIds(rest, reviewed, available);
    assert AuditIds(reviewed) == Ids(rest);
    assert WellFormed(reviewed);
    hide Review;
    FormExactly(approved);
    ApprovedExactly(claims, approved);
    OwnExactly(claims, cited, approved);
    hide InDraftOrder;
    hide RestOnOwn;
    hide WithinForm;
    hide WellFormed;
    hide OwnEvidence;
    assert ApprovalsMatch(claims, cited, approved) <==> Mergeable(claims, cited, approved, reviewed);
    hide Select;
    hide AuditIds;
    if Mergeable(claims, cited, approved, reviewed)
       && Review(Pick(claims, AuditIds(approved)), approved, available).Failure? {
      MergeFailsAsApproved(claims, cited, approved, reviewed, available);
    }
  }

  predicate TooComplexFor(claims: seq<Claim>, limit: int) {
    exists i :: 0 <= i < |claims| && UnitsOf(claims[i]) > limit
  }

  predicate AnyError(batches: seq<seq<Claim>>, ask: seq<int> -> Reply, available: Available) {
    exists i :: 0 <= i < |batches| && BatchError(batches[i], ask(Ids(batches[i])), available).Some?
  }

  /** The first wave with an error decides, by its weightiest. */
  ghost predicate FirstWaveFails(batches: seq<seq<Claim>>, ask: seq<int> -> Reply, available: Available,
                                 e: AuditError) {
    exists start: nat ::
      && start < |batches| && start % WAVE == 0 && WaveError(WaveAt(batches, start), ask, available) == Some(e)
      && forall i :: 0 <= i < start ==> BatchError(batches[i], ask(Ids(batches[i])), available).None?
  }

  lemma FailingWave(batches: seq<seq<Claim>>, start: nat, ask: seq<int> -> Reply, available: Available)
    requires start < |batches| && WaveError(WaveAt(batches, start), ask, available).Some?
    ensures AnyError(batches, ask, available)
  {
    var wave, e := WaveAt(batches, start), WaveError(WaveAt(batches, start), ask, available).value;
    hide BatchError;
    assert HasError(wave, ask, available, e);
    var i :| 0 <= i < |wave| && BatchError(wave[i], ask(Ids(wave[i])), available) == Some(e);
    assert batches[start + i] == wave[i];
  }

  /** What the review of the claims that no approval covers comes to, batch by batch. */
  ghost predicate Decides(claims: seq<Claim>, cited: seq<seq<int>>, approved: seq<ClaimAudit>, batches: seq<seq<Claim>>,
                          ask: seq<int> -> Reply, available: Available, r: Result<seq<seq<int>>, AuditError>)
    requires Numbered(claims) && |cited| == |claims|
  {
    if AnyError(batches, ask, available) then
      r.Failure? && FirstWaveFails(batches, ask, available, r.error)
    else
      && (r.Success? <==> approved == [] || (ApprovalsMatch(claims, cited, approved)
                                             && Review(Pick(claims, AuditIds(approved)), approved, available).Success?))
      && (r.Failure? ==>
            r.error == if ApprovalsMatch(claims, cited, approved)
                       then Review(Pick(claims, AuditIds(approved)), approved, available).error else Integrity)
  }

  /** The review of the batches, their merge with the approvals, and the review of the whole. */
  method ReviewBatches(claims: seq<Claim>, cited: seq<seq<int>>, approved: seq<ClaimAudit>, batches: seq<seq<Claim>>,
                       ask: seq<int> -> Reply, available: Available)
    returns (r: Result<seq<seq<int>>, AuditError>)
    requires Numbered(claims) && |cited| == |claims| && GoodBatches(claims, batches)
    requires Flatten(batches) == Select(claims, AuditIds(approved), false) && |Flatten(batches)| <= MAX_CLAIMS
    ensures Decides(claims, cited, approved, batches, ask, available, r)
    ensures r.Success? ==>
              Citable(claims, r.value, available) && Assembled(claims, approved, batches, ask, available, r.value)
  {
    hide Review;
    hide ProvenParts;
    hide Citable;
    hide Select;
    hide BatchError;
    hide WaveError;
    hide GoodBatches;
    hide ApprovalsMatch;
    var answers, start := ReviewWaves(claims, batches, ask, available);
    if answers.Failure? {
      FailingWave(batches, start, ask, available);
      return Failure(answers.error);
    }
    AcceptedHaveNoError(batches, answers.value, ask, available);
    BatchesConcatenate(batches, answers.value, available);
    MergeOfAccepted(claims, cited, approved, Flatten(answers.value), available);
    r := FinishReview(claims, cited, approved, Flatten(answers.value), available);
    assert r.Success? ==>
             Answers(batches, ask, answers.value, |batches|)
               && ProvenParts(claims, approved, Flatten(answers.value), available, r.value);
  }

  /** `approved` is what an earlier partial review cleared; `cited` are the citations of the draft. */
  method CompleteCitationEvidence(claims: seq<Claim>, cited: seq<seq<int>>, approved: seq<ClaimAudit>, maxOutput: int,
                                  ask: seq<int> -> Reply, available: Available)
    returns (r: Result<seq<seq<int>>, AuditError>, ghost batches: seq<seq<Claim>>)
    requires Numbered(claims) && |cited| == |claims|
    ensures r.Success? ==> Citable(claims, r.value, available)
    ensures var remaining := Select(claims, AuditIds(approved), false);
            if remaining == [] then
              && r == Review(claims, approved, available)
              && (r.Success? ==> ProvenEach(claims, approved, available, r.value))
            else if maxOutput < 1 then r == Failure(Integrity)
            else if TooComplexFor(remaining, UnitLimit(maxOutput)) then r == Failure(Rejected)
            else
              && Partition(remaining, batches, ReviewFits(UnitsOf, UnitLimit(maxOutput)))
              && Decides(claims, cited, approved, batches, ask, available, r)
              && (r.Success? ==> Assembled(claims, approved, batches, ask, available, r.value))
  {
    hide Review;
    hide Citable;
    hide Select;
    hide Decides;
    hide Assembled;
    batches := [];
    var remaining := Select(claims, AuditIds(approved), false);
    if remaining == [] {
      r := ReviewCitations(claims, approved, available);
      if r.Success? {
        AcceptedIsCitable(claims, approved, available);
        AcceptedIsProven(claims, approved, available);
      }
      return;
    }
    var planned := EvidenceReviewBatches(remaining, UnitsOf, maxOutput);
    if planned.Failure? { return Failure(if planned.error.TooComplex? then Rejected else Integrity), batches; }
    batches := planned.value;
    SelectFacts(claims, AuditIds(approved), false);
    BatchesAreGood(claims, remaining, batches, ReviewFits(UnitsOf, UnitLimit(maxOutput)));
    PartSizes(claims, AuditIds(approved));
    r := ReviewBatches(claims, cited, approved, planned.value, ask, available);
  }
}
