/**
 Reviewing an answer in parts: claims already approved are set aside, the rest is reviewed batch by batch in
 waves of two, and the parts are merged. The merged audit says exactly what its parts said.
 */
module AuditSplit {
  import opened Wrappers
  import opened EvidenceAudit
  import opened Sequences

  /** The claims of a draft are numbered from one. */
  predicate Numbered(claims: seq<Claim>) {
    |claims| <= MAX_CLAIMS && forall i :: 0 <= i < |claims| ==> claims[i].id == i + 1
  }

  function Ids(claims: seq<Claim>): seq<int> {
    seq(|claims|, i requires 0 <= i < |claims| => claims[i].id)
  }

  function AuditIds(audit: seq<ClaimAudit>): seq<int> {
    seq(|audit|, i requires 0 <= i < |audit| => audit[i].claimId)
  }

  /** The claims whose ids are listed, or the others, in the order of the draft. */
  function Select(claims: seq<Claim>, ids: seq<int>, listed: bool): seq<Claim> {
    if claims == [] then []
    else
      var prior := Select(claims[..|claims| - 1], ids, listed);
      var last := claims[|claims| - 1];
      if (last.id in ids) == listed then prior + [last] else prior
  }

  function Pick(claims: seq<Claim>, ids: seq<int>): seq<Claim> {
    Select(claims, ids, true)
  }

  /** A request names some claims, each once and in order. */
  function Requested(claims: seq<Claim>, ids: seq<int>): Result<seq<Claim>, AuditError> {
    if ids == [] || ids != Ids(Pick(claims, ids)) then Failure(Integrity) else Success(Pick(claims, ids))
  }

  function Validate(claims: seq<Claim>, ids: seq<int>, audit: seq<ClaimAudit>,
                    available: Available): Result<seq<seq<int>>, AuditError> {
    match Requested(claims, ids)
    case Failure(e) => Failure(e)
    case Success(requested) => Review(requested, audit, available)
  }

  // ---- Merging ----

  function Lookup(audit: seq<ClaimAudit>, id: int): (r: Option<ClaimAudit>)
    ensures r.Some? ==> r.value in audit && r.value.claimId == id
    ensures r.None? <==> forall i :: 0 <= i < |audit| ==> audit[i].claimId != id
  {
    if audit == [] then None
    else if audit[|audit| - 1].claimId == id then Some(audit[|audit| - 1])
    else Lookup(audit[..|audit| - 1], id)
  }

  /** An approved claim is supported throughout by sources it already cites. */
  predicate OwnEvidence(a: ClaimAudit, cited: seq<int>) {
    forall k :: 0 <= k < |a.units| ==> a.units[k].supported && OwnSources(a.units[k].evidence, cited)
  }

  predicate OwnSources(evidence: seq<Reference>, cited: seq<int>) {
    forall j :: 0 <= j < |evidence| ==> evidence[j].sourceId in cited
  }

  /** Approved and reviewed claims partition the draft, and approvals rest on their own citations. */
  predicate Mergeable(claims: seq<Claim>, cited: seq<seq<int>>, approved: seq<ClaimAudit>, reviewed: seq<ClaimAudit>)
    requires Numbered(claims) && |cited| == |claims|
  {
    && WellFormed(approved) && WellFormed(reviewed)
    && AuditIds(approved) == Ids(Pick(claims, AuditIds(approved)))
    && AuditIds(reviewed) == Ids(Select(claims, AuditIds(approved), false))
    && forall i :: 0 <= i < |approved| ==>
       1 <= approved[i].claimId <= |claims| ==> OwnEvidence(approved[i], cited[approved[i].claimId - 1])
  }

  function Combined(claims: seq<Claim>, approved: seq<ClaimAudit>, reviewed: seq<ClaimAudit>): seq<Option<ClaimAudit>> {
    seq(|claims|, i requires 0 <= i < |claims| => Lookup(approved + reviewed, claims[i].id))
  }

  predicate Complete(combined: seq<Option<ClaimAudit>>) {
    forall i :: 0 <= i < |combined| ==> combined[i].Some?
  }

  function Unwrapped(combined: seq<Option<ClaimAudit>>): seq<ClaimAudit>
    requires Complete(combined)
  {
    seq(|combined|, i requires 0 <= i < |combined| => combined[i].value)
  }

  // ---- Which claims are picked ----

  predicate Increasing(ids: seq<int>) {
    forall i, j :: 0 <= i < j < |ids| ==> ids[i] < ids[j]
  }

  lemma IncreasingSnoc(claims: seq<Claim>, last: Claim)
    requires Increasing(Ids(claims)) && forall c :: c in claims ==> c.id < last.id
    ensures Increasing(Ids(claims + [last]))
  {
    assert forall i :: 0 <= i < |claims| ==> claims[i] in claims && Ids(claims)[i] == claims[i].id;
    assert Ids(claims + [last]) == Ids(claims) + [last.id];
  }

  lemma {:induction false} SelectFacts(claims: seq<Claim>, ids: seq<int>, listed: bool)
    requires Numbered(claims)
    ensures Increasing(Ids(Select(claims, ids, listed)))
    ensures forall c :: c in Select(claims, ids, listed) <==> c in claims && (c.id in ids) == listed
  {
    if claims != [] {
      var n := |claims| - 1;
      var prior := Select(claims[..n], ids, listed);
      SelectFacts(claims[..n], ids, listed);
      assert claims == claims[..n] + [claims[n]];
      assert forall c :: c in prior ==> c in claims[..n] && c.id < claims[n].id;
      IncreasingSnoc(prior, claims[n]);
      hide Ids;
      hide Increasing;
    }
  }

  lemma HasElement(s: seq<int>)
    requires s != []
    ensures exists x :: x in s
  {
    var x := s[0];
    assert x in s;
  }

  /** Increasing lists with the same elements are equal. */
  lemma {:induction false} IncreasingUnique(a: seq<int>, b: seq<int>)
    requires Increasing(a) && Increasing(b) && forall x :: x in a <==> x in b
    ensures a == b
  {
    if a != [] { HasElement(a); }
    if b != [] { HasElement(b); }
    if a != [] && b != [] {
      assert a[0] in a && b[0] in b;
      assert a[0] == b[0];
      forall x ensures x in a[1..] <==> x in b[1..] {
        assert x in a <==> x == a[0] || x in a[1..];
        assert x in b <==> x == b[0] || x in b[1..];
      }
      IncreasingUnique(a[1..], b[1..]);
    }
  }

  /** Claims of the draft in its order are what their ids request. */
  lemma RequestIsAnswered(claims: seq<Claim>, part: seq<Claim>)
    requires Numbered(claims) && Increasing(Ids(part)) && (forall c :: c in part ==> c in claims)
    ensures Pick(claims, Ids(part)) == part
    ensures part != [] ==> Requested(claims, Ids(part)) == Success(part)
  {
    var ids, picked := Ids(part), Pick(claims, Ids(part));
    SelectFacts(claims, ids, true);
    forall x ensures x in ids <==> x in Ids(picked) {
      if x in ids {
        var i :| 0 <= i < |ids| && ids[i] == x;
        assert part[i] in claims && part[i].id in ids;
        assert part[i] in picked;
        var j :| 0 <= j < |picked| && picked[j] == part[i];
        assert Ids(picked)[j] == x;
      }
      if x in Ids(picked) {
        var j :| 0 <= j < |picked| && Ids(picked)[j] == x;
        assert picked[j] in picked;
      }
    }
    IncreasingUnique(ids, Ids(picked));
    forall i | 0 <= i < |part| ensures part[i] == picked[i] {
      assert Ids(picked)[i] == ids[i];
      assert part[i] in claims && picked[i] in picked;
    }
    assert |picked| == |Ids(picked)|;
  }

  // ---- Parts and wholes ----

  /** A claim whose audit is complete, real and positive, with at most three sources. */
  predicate Accepts(claim: Claim, a: ClaimAudit, available: Available) {
    ClaimIntegral(claim, a, available) && WellFormedClaim(a) && Clean(a)
  }

  ghost predicate EachAccepts(claims: seq<Claim>, audit: seq<ClaimAudit>, available: Available) {
    |audit| == |claims| && forall i :: 0 <= i < |claims| ==> Accepts(claims[i], audit[i], available)
  }

  /** A review is accepted claim by claim. */
  lemma ReviewByClaim(claims: seq<Claim>, audit: seq<ClaimAudit>, available: Available)
    ensures Review(claims, audit, available).Success? <==>
            |audit| <= MAX_CLAIMS && EachAccepts(claims, audit, available)
    ensures Review(claims, audit, available).Success? ==> Review(claims, audit, available).value == Citations(audit)
  {
    hide ClaimIntegral;
    hide WellFormedClaim;
    hide Clean;
  }

  lemma ReviewConcat(a: seq<Claim>, auditA: seq<ClaimAudit>, b: seq<Claim>, auditB: seq<ClaimAudit>,
                     available: Available)
    requires Review(a, auditA, available).Success? && Review(b, auditB, available).Success? && |a| + |b| <= MAX_CLAIMS
    ensures Review(a + b, auditA + auditB, available)
            == Success(Review(a, auditA, available).value + Review(b, auditB, available).value)
  {
    hide Accepts;
    ReviewByClaim(a, auditA, available);
    ReviewByClaim(b, auditB, available);
    ReviewByClaim(a + b, auditA + auditB, available);
    hide Review;
    assert Citations(auditA + auditB) == Citations(auditA) + Citations(auditB);
  }

  ghost predicate EachAccepted(batches: seq<seq<Claim>>, audits: seq<seq<ClaimAudit>>, available: Available) {
    |audits| == |batches| && forall i :: 0 <= i < |batches| ==> Review(batches[i], audits[i], available).Success?
  }

  function BatchCitations(audits: seq<seq<ClaimAudit>>): seq<seq<seq<int>>> {
    seq(|audits|, i requires 0 <= i < |audits| => Citations(audits[i]))
  }

  /** Accepted batches concatenate to an accepted review of all their claims, with the citations of each batch. */
  lemma {:induction false} BatchesConcatenate(batches: seq<seq<Claim>>, audits: seq<seq<ClaimAudit>>,
                                              available: Available)
    requires EachAccepted(batches, audits, available) && |Flatten(batches)| <= MAX_CLAIMS
    ensures Review(Flatten(batches), Flatten(audits), available) == Success(Flatten(BatchCitations(audits)))
  {
    if batches == [] {
      assert audits == [] && BatchCitations(audits) == [] && Citations([]) == [];
      ReviewByClaim([], [], available);
      hide Review;
    } else {
      assert Review(batches[0], audits[0], available).Success?;
      assert EachAccepted(batches[1..], audits[1..], available);
      BatchesConcatenate(batches[1..], audits[1..], available);
      ReviewConcat(batches[0], audits[0], Flatten(batches[1..]), Flatten(audits[1..]), available);
      ReviewByClaim(batches[0], audits[0], available);
      hide Review;
      assert BatchCitations(audits)[1..] == BatchCitations(audits[1..]);
      assert Flatten(BatchCitations(audits)) == Citations(audits[0]) + Flatten(BatchCitations(audits[1..]));
    }
  }

  // ---- Merging loses and adds nothing ----

  predicate DistinctAudits(audit: seq<ClaimAudit>) {
    forall i, j :: 0 <= i < j < |audit| ==> audit[i].claimId != audit[j].claimId
  }

  lemma {:induction false} LookupAt(audit: seq<ClaimAudit>, p: nat)
    requires DistinctAudits(audit) && p < |audit|
    ensures Lookup(audit, audit[p].claimId) == Some(audit[p])
  {
    if p < |audit| - 1 { LookupAt(audit[..|audit| - 1], p); }
  }

  /** The two parts: the approved claims with their audits, then the others with theirs. */
  function Parts(claims: seq<Claim>, approved: seq<ClaimAudit>): seq<Claim> {
    Pick(claims, AuditIds(approved)) + Select(claims, AuditIds(approved), false)
  }

  lemma SameIds(part: seq<Claim>, audit: seq<ClaimAudit>)
    requires AuditIds(audit) == Ids(part)
    ensures |part| == |audit| && forall i :: 0 <= i < |part| ==> audit[i].claimId == part[i].id
  {
    assert |AuditIds(audit)| == |Ids(part)|;
    forall i | 0 <= i < |part| ensures audit[i].claimId == part[i].id {
      assert AuditIds(audit)[i] == Ids(part)[i];
    }
  }

  lemma PartsDistinct(claims: seq<Claim>, approved: seq<ClaimAudit>)
    requires Numbered(claims)
    ensures var parts := Parts(claims, approved);
            && (forall i, j :: 0 <= i < j < |parts| ==> parts[i].id != parts[j].id)
            && forall c :: c in parts <==> c in claims
  {
    var ids := AuditIds(approved);
    var p, q := Pick(claims, ids), Select(claims, ids, false);
    SelectFacts(claims, ids, true);
    SelectFacts(claims, ids, false);
    assert forall i :: 0 <= i < |p| ==> Ids(p)[i] == p[i].id && p[i] in p;
    assert forall i :: 0 <= i < |q| ==> Ids(q)[i] == q[i].id && q[i] in q;
    hide Select;
  }

  lemma {:induction false} PartSizes(claims: seq<Claim>, ids: seq<int>)
    ensures |Select(claims, ids, true)| + |Select(claims, ids, false)| == |claims|
  {
    if claims != [] { PartSizes(claims[..|claims| - 1], ids); }
  }

  /** The merged audit of a claim is the audit of that claim in its part. */
  lemma MergedAudit(claims: seq<Claim>, cited: seq<seq<int>>, approved: seq<ClaimAudit>, reviewed: seq<ClaimAudit>,
                    p: nat)
    requires Numbered(claims) && |cited| == |claims| && Mergeable(claims, cited, approved, reviewed)
    requires p < |Parts(claims, approved)|
    ensures var parts := Parts(claims, approved);
            && |approved + reviewed| == |parts| && 1 <= parts[p].id <= |claims| && claims[parts[p].id - 1] == parts[p]
            && Combined(claims, approved, reviewed)[parts[p].id - 1] == Some((approved + reviewed)[p])
  {
    var ids := AuditIds(approved);
    var parts, audits := Parts(claims, approved), approved + reviewed;
    SameIds(Pick(claims, ids), approved);
    SameIds(Select(claims, ids, false), reviewed);
    PartsDistinct(claims, approved);
    hide Select;
    assert forall i :: 0 <= i < |parts| ==> audits[i].claimId == parts[i].id;
    assert parts[p] in parts;
    LookupAt(audits, p);
  }

  lemma PartIndex(claims: seq<Claim>, approved: seq<ClaimAudit>, i: nat) returns (p: nat)
    requires Numbered(claims) && i < |claims|
    ensures p < |Parts(claims, approved)| && Parts(claims, approved)[p] == claims[i]
  {
    PartsDistinct(claims, approved);
    assert claims[i] in claims;
    p :| 0 <= p < |Parts(claims, approved)| && Parts(claims, approved)[p] == claims[i];
  }

  lemma CombinedComplete(claims: seq<Claim>, cited: seq<seq<int>>, approved: seq<ClaimAudit>, reviewed: seq<ClaimAudit>)
    requires Numbered(claims) && |cited| == |claims| && Mergeable(claims, cited, approved, reviewed)
    ensures Complete(Combined(claims, approved, reviewed)) && |approved| + |reviewed| == |claims|
  {
    forall i | 0 <= i < |claims| ensures Combined(claims, approved, reviewed)[i].Some? {
      var p := PartIndex(claims, approved, i);
      MergedAudit(claims, cited, approved, reviewed, p);
    }
    PartSizes(claims, AuditIds(approved));
    SameIds(Pick(claims, AuditIds(approved)), approved);
    SameIds(Select(claims, AuditIds(approved), false), reviewed);
  }

  lemma PartsFromMerged(claims: seq<Claim>, cited: seq<seq<int>>, approved: seq<ClaimAudit>, reviewed: seq<ClaimAudit>,
                        merged: seq<ClaimAudit>, available: Available)
    requires Numbered(claims) && |cited| == |claims| && Mergeable(claims, cited, approved, reviewed)
    requires Complete(Combined(claims, approved, reviewed)) && merged == Unwrapped(Combined(claims, approved, reviewed))
    requires EachAccepts(claims, merged, available)
    ensures EachAccepts(Parts(claims, approved), approved + reviewed, available)
  {
    hide Accepts;
    hide Mergeable;
    hide Parts;
    var parts, audits := Parts(claims, approved), approved + reviewed;
    CombinedComplete(claims, cited, approved, reviewed);
    PartCount(claims, approved);
    forall p | 0 <= p < |parts| ensures Accepts(parts[p], audits[p], available) {
      MergedAudit(claims, cited, approved, reviewed, p);
      assert Accepts(claims[parts[p].id - 1], merged[parts[p].id - 1], available);
    }
  }

  lemma PartCount(claims: seq<Claim>, approved: seq<ClaimAudit>)
    ensures |Parts(claims, approved)| == |claims|
  {
    PartSizes(claims, AuditIds(approved));
  }

  lemma MergedFromParts(claims: seq<Claim>, cited: seq<seq<int>>, approved: seq<ClaimAudit>, reviewed: seq<ClaimAudit>,
                        merged: seq<ClaimAudit>, available: Available)
    requires Numbered(claims) && |cited| == |claims| && Mergeable(claims, cited, approved, reviewed)
    requires Complete(Combined(claims, approved, reviewed)) && merged == Unwrapped(Combined(claims, approved, reviewed))
    requires EachAccepts(Parts(claims, approved), approved + reviewed, available)
    ensures EachAccepts(claims, merged, available)
  {
    hide Accepts;
    hide Mergeable;
    hide Parts;
    var parts, audits := Parts(claims, approved), approved + reviewed;
    forall i | 0 <= i < |claims| ensures Accepts(claims[i], merged[i], available) {
      var p := PartIndex(claims, approved, i);
      MergedAudit(claims, cited, approved, reviewed, p);
      assert Accepts(parts[p], audits[p], available);
    }
  }

  /** The merged audit is accepted exactly when the approved part and the reviewed part are. */
  lemma MergeIsParts(claims: seq<Claim>, cited: seq<seq<int>>, approved: seq<ClaimAudit>, reviewed: seq<ClaimAudit>,
                     available: Available)
    requires Numbered(claims) && |cited| == |claims| && Mergeable(claims, cited, approved, reviewed)
    ensures Complete(Combined(claims, approved, reviewed))
    ensures Review(claims, Unwrapped(Combined(claims, approved, reviewed)), available).Success?
            <==> Review(Parts(claims, approved), approved + reviewed, available).Success?
  {
    CombinedComplete(claims, cited, approved, reviewed);
    var merged, parts, audits := Unwrapped(Combined(claims, approved, reviewed)), Parts(claims, approved),
      approved + reviewed;
    ReviewByClaim(claims, merged, available);
    ReviewByClaim(parts, audits, available);
    PartCount(claims, approved);
    hide EachAccepts;
    hide Review;
    hide Mergeable;
    hide Parts;
    if EachAccepts(claims, merged, available) { PartsFromMerged(claims, cited, approved, reviewed, merged, available); }
    if EachAccepts(parts, audits, available) { MergedFromParts(claims, cited, approved, reviewed, merged, available); }
  }

  /** Two parts are accepted together exactly when each is. */
  lemma PartsSeparately(a: seq<Claim>, auditA: seq<ClaimAudit>, b: seq<Claim>, auditB: seq<ClaimAudit>,
                        available: Available)
    requires |auditA| == |a| && |auditB| == |b| && |a| + |b| <= MAX_CLAIMS
    ensures Review(a + b, auditA + auditB, available).Success?
            <==> Review(a, auditA, available).Success? && Review(b, auditB, available).Success?
  {
    hide Accepts;
    ReviewByClaim(a, auditA, available);
    ReviewByClaim(b, auditB, available);
    ReviewByClaim(a + b, auditA + auditB, available);
    hide Review;
    if EachAccepts(a + b, auditA + auditB, available) {
      forall i | 0 <= i < |a| ensures Accepts(a[i], auditA[i], available) {
        assert (a + b)[i] == a[i] && (auditA + auditB)[i] == auditA[i];
      }
      forall i | 0 <= i < |b| ensures Accepts(b[i], auditB[i], available) {
        assert (a + b)[|a| + i] == b[i] && (auditA + auditB)[|a| + i] == auditB[i];
      }
    }
  }

  // ---- The whole review ----

  function MergeAudits(claims: seq<Claim>, cited: seq<seq<int>>, approved: seq<ClaimAudit>, reviewed: seq<ClaimAudit>,
                       available: Available)
    : Result<seq<ClaimAudit>, AuditError>
    requires Numbered(claims) && |cited| == |claims|
  {
    if !Mergeable(claims, cited, approved, reviewed) then Failure(Integrity)
    else
      var combined := Combined(claims, approved, reviewed);
      if !Complete(combined) then Failure(Integrity)
      else
        match Review(claims, Unwrapped(combined), available)
        case Failure(e) => Failure(e)
        case Success(_) => Success(Unwrapped(combined))
  }

  /** The merge succeeds exactly when the parts match up and each is accepted; it never lacks a claim. */
  lemma MergeSucceedsExactly(claims: seq<Claim>, cited: seq<seq<int>>, approved: seq<ClaimAudit>,
                             reviewed: seq<ClaimAudit>, available: Available)
    requires Numbered(claims) && |cited| == |claims|
    ensures MergeAudits(claims, cited, approved, reviewed, available).Success? <==>
            && Mergeable(claims, cited, approved, reviewed)
            && Review(Pick(claims, AuditIds(approved)), approved, available).Success?
            && Review(Select(claims, AuditIds(approved), false), reviewed, available).Success?
    ensures Mergeable(claims, cited, approved, reviewed) ==> Complete(Combined(claims, approved, reviewed))
  {
    if Mergeable(claims, cited, approved, reviewed) {
      var ids := AuditIds(approved);
      MergeIsParts(claims, cited, approved, reviewed, available);
      SameIds(Pick(claims, ids), approved);
      SameIds(Select(claims, ids, false), reviewed);
      PartSizes(claims, ids);
      PartsSeparately(Pick(claims, ids), approved, Select(claims, ids, false), reviewed, available);
      hide Review;
    }
  }

  /** In a merge that succeeds, the audit of each claim is that of its own part, and it proves the claim. */
  lemma MergedCitations(claims: seq<Claim>, cited: seq<seq<int>>, approved: seq<ClaimAudit>, reviewed: seq<ClaimAudit>,
                        available: Available, p: nat)
    requires Numbered(claims) && |cited| == |claims|
             && MergeAudits(claims, cited, approved, reviewed, available).Success?
    requires p < |Parts(claims, approved)|
    ensures var merged := MergeAudits(claims, cited, approved, reviewed, available).value;
            var claim := Parts(claims, approved)[p];
            && Review(claims, merged, available).Success? && |merged| == |claims| && 1 <= claim.id <= |claims|
            && claims[claim.id - 1] == claim && p < |approved + reviewed|
            && merged[claim.id - 1] == (approved + reviewed)[p]
            && ProvenBy(claim, merged[claim.id - 1], available, Review(claims, merged, available).value[claim.id - 1])
  {
    hide Review;
    MergedAudit(claims, cited, approved, reviewed, p);
    var merged := MergeAudits(claims, cited, approved, reviewed, available).value;
    assert Review(claims, merged, available).Success? && |merged| == |claims|;
    hide MergeAudits;
    AcceptedCitations(claims, merged, available, Parts(claims, approved)[p].id - 1);
    hide ProvenBy;
    hide Mergeable;
    hide Parts;
    hide Lookup;
  }

  // ---- How a merge fails ----

  /** The audit of a part stands in the merged audit under the number of its claim. */
  ghost predicate PlacedAt(claims: seq<Claim>, merged: seq<ClaimAudit>, claim: Claim, a: ClaimAudit) {
    1 <= claim.id <= |claims| == |merged| && claims[claim.id - 1] == claim && merged[claim.id - 1] == a
  }

  ghost predicate Placed(claims: seq<Claim>, merged: seq<ClaimAudit>, parts: seq<Claim>, audits: seq<ClaimAudit>) {
    && |parts| == |audits| && |merged| == |claims|
    && (forall p :: 0 <= p < |parts| ==> PlacedAt(claims, merged, parts[p], audits[p]))
    && forall c :: c in claims ==> c in parts
  }

  ghost predicate EachReads(claims: seq<Claim>, audit: seq<ClaimAudit>, available: Available) {
    |audit| == |claims|
    && forall i :: 0 <= i < |claims| ==> Reads(claims[i], audit[i], available) && ClaimWithinForm(audit[i])
  }

  lemma EachReadsExactly(claims: seq<Claim>, audit: seq<ClaimAudit>, available: Available)
    requires |claims| <= MAX_CLAIMS
    ensures ReadsAll(claims, audit, available) <==> EachReads(claims, audit, available)
  {
    hide Reads;
    hide ClaimWithinForm;
  }

  lemma ReadsByPart(a: seq<Claim>, auditA: seq<ClaimAudit>, b: seq<Claim>, auditB: seq<ClaimAudit>,
                    available: Available)
    requires |auditA| == |a| && |auditB| == |b|
    ensures EachReads(a + b, auditA + auditB, available)
            <==> EachReads(a, auditA, available) && EachReads(b, auditB, available)
  {
    hide Reads;
    hide ClaimWithinForm;
    var parts, audits := a + b, auditA + auditB;
    if EachReads(parts, audits, available) {
      forall p | 0 <= p < |a| ensures Reads(a[p], auditA[p], available) && ClaimWithinForm(auditA[p]) {
        assert parts[p] == a[p] && audits[p] == auditA[p];
      }
      forall p | 0 <= p < |b| ensures Reads(b[p], auditB[p], available) && ClaimWithinForm(auditB[p]) {
        assert parts[|a| + p] == b[p] && audits[|a| + p] == auditB[p];
      }
    }
  }

  lemma ReadsWherePlaced(claims: seq<Claim>, merged: seq<ClaimAudit>, parts: seq<Claim>, audits: seq<ClaimAudit>,
                         available: Available)
    requires Numbered(claims) && Placed(claims, merged, parts, audits)
    ensures EachReads(claims, merged, available) <==> EachReads(parts, audits, available)
  {
    hide Reads;
    hide ClaimWithinForm;
    if EachReads(claims, merged, available) {
      forall p | 0 <= p < |parts| ensures Reads(parts[p], audits[p], available) && ClaimWithinForm(audits[p]) {
        assert PlacedAt(claims, merged, parts[p], audits[p]);
      }
    }
    if EachReads(parts, audits, available) {
      forall i | 0 <= i < |claims| ensures Reads(claims[i], merged[i], available) && ClaimWithinForm(merged[i]) {
        assert claims[i] in parts;
        var p :| 0 <= p < |parts| && parts[p] == claims[i];
        assert Reads(parts[p], audits[p], available);
        PlacedOnce(claims, merged, parts[p], audits[p], i);
      }
    }
  }

  lemma PlacedOnce(claims: seq<Claim>, merged: seq<ClaimAudit>, claim: Claim, a: ClaimAudit, i: nat)
    requires Numbered(claims) && PlacedAt(claims, merged, claim, a) && i < |claims| && claims[i] == claim
    ensures i < |merged| && merged[i] == a
  {
  }

  /** The merged audit reads every claim at real passages exactly when its parts read theirs. */
  lemma MergedReads(claims: seq<Claim>, cited: seq<seq<int>>, approved: seq<ClaimAudit>, reviewed: seq<ClaimAudit>,
                    available: Available)
    requires Numbered(claims) && |cited| == |claims| && Mergeable(claims, cited, approved, reviewed)
    ensures Complete(Combined(claims, approved, reviewed))
    ensures ReadsAll(claims, Unwrapped(Combined(claims, approved, reviewed)), available)
            <==> ReadsAll(Pick(claims, AuditIds(approved)), approved, available)
                 && ReadsAll(Select(claims, AuditIds(approved), false), reviewed, available)
  {
    var a, b := Pick(claims, AuditIds(approved)), Select(claims, AuditIds(approved), false);
    CombinedComplete(claims, cited, approved, reviewed);
    var merged := Unwrapped(Combined(claims, approved, reviewed));
    SameIds(a, approved);
    SameIds(b, reviewed);
    PartCount(claims, approved);
    MergedIsPlaced(claims, cited, approved, reviewed);
    ReadsWherePlaced(claims, merged, a + b, approved + reviewed, available);
    ReadsByPart(a, approved, b, reviewed, available);
    EachReadsExactly(claims, merged, available);
    EachReadsExactly(a, approved, available);
    EachReadsExactly(b, reviewed, available);
    hide EachReads;
    hide ReadsAll;
    hide Select;
    hide Mergeable;
    hide Combined;
  }

  lemma MergedIsPlaced(claims: seq<Claim>, cited: seq<seq<int>>, approved: seq<ClaimAudit>, reviewed: seq<ClaimAudit>)
    requires Numbered(claims) && |cited| == |claims| && Mergeable(claims, cited, approved, reviewed)
    requires Complete(Combined(claims, approved, reviewed))
    ensures Placed(claims, Unwrapped(Combined(claims, approved, reviewed)), Parts(claims, approved),
                   approved + reviewed)
  {
    var merged, parts, audits := Unwrapped(Combined(claims, approved, reviewed)), Parts(claims, approved),
      approved + reviewed;
    CombinedComplete(claims, cited, approved, reviewed);
    PartCount(claims, approved);
    PartsDistinct(claims, approved);
    hide Mergeable;
    hide Parts;
    hide Numbered;
    forall p | 0 <= p < |parts| ensures PlacedAt(claims, merged, parts[p], audits[p]) {
      MergedAudit(claims, cited, approved, reviewed, p);
    }
  }

  /** When the parts match up and the reviewed one is accepted, what fails the merge is the approved part's error. */
  lemma MergeFailsAsApproved(claims: seq<Claim>, cited: seq<seq<int>>, approved: seq<ClaimAudit>,
                             reviewed: seq<ClaimAudit>, available: Available)
    requires Numbered(claims) && |cited| == |claims| && Mergeable(claims, cited, approved, reviewed)
    requires Review(Select(claims, AuditIds(approved), false), reviewed, available).Success?
    requires Review(Pick(claims, AuditIds(approved)), approved, available).Failure?
    ensures MergeAudits(claims, cited, approved, reviewed, available)
            == Failure(Review(Pick(claims, AuditIds(approved)), approved, available).error)
  {
    var merged := Unwrapped(Combined(claims, approved, reviewed));
    MergedReads(claims, cited, approved, reviewed, available);
    MergeSucceedsExactly(claims, cited, approved, reviewed, available);
    ReviewErrorsExactly(claims, merged, available);
    ReviewErrorsExactly(Pick(claims, AuditIds(approved)), approved, available);
    ReviewErrorsExactly(Select(claims, AuditIds(approved), false), reviewed, available);
    hide Review;
    hide ReadsAll;
    hide Select;
    hide Mergeable;
    hide Combined;
  }

  // ---- When parts match up ----

  /** Claims of the draft, each once and in order. */
  ghost predicate InDraftOrder(claims: seq<Claim>, audit: seq<ClaimAudit>) {
    && (forall i :: 0 <= i < |audit| ==> 1 <= audit[i].claimId <= |claims|)
    && forall i, j :: 0 <= i < j < |audit| ==> audit[i].claimId < audit[j].claimId
  }

  /** Every claim has its audit in one of the parts, and no claim in both. */
  ghost predicate Divide(claims: seq<Claim>, approved: seq<ClaimAudit>, reviewed: seq<ClaimAudit>) {
    forall id :: 1 <= id <= |claims| ==> (id in AuditIds(approved) <==> id !in AuditIds(reviewed))
  }

  /** Every unit of every approval is supported, by sources that the draft cites for its claim. */
  ghost predicate RestOnOwn(cited: seq<seq<int>>, approved: seq<ClaimAudit>) {
    forall i, k :: 0 <= i < |approved| && 0 <= k < |approved[i].units| && 1 <= approved[i].claimId <= |cited| ==>
      UnitRestsOn(approved[i].units[k], cited[approved[i].claimId - 1])
  }

  ghost predicate UnitRestsOn(u: UnitAudit, cited: seq<int>) {
    u.supported && forall j :: 0 <= j < |u.evidence| ==> u.evidence[j].sourceId in cited
  }

  /** The ids of a selection: increasing, and exactly those numbers of claims that are listed as wanted. */
  lemma SelectedIds(claims: seq<Claim>, ids: seq<int>, listed: bool)
    requires Numbered(claims)
    ensures Increasing(Ids(Select(claims, ids, listed)))
    ensures forall x :: x in Ids(Select(claims, ids, listed)) <==> 1 <= x <= |claims| && (x in ids) == listed
  {
    var picked := Select(claims, ids, listed);
    SelectFacts(claims, ids, listed);
    hide Select;
    hide Increasing;
    forall x ensures x in Ids(picked) <==> exists c :: c in picked && c.id == x { IdIsListed(picked, x); }
    hide Ids;
    forall x | 1 <= x <= |claims| && (x in ids) == listed ensures x in Ids(picked) { assert claims[x - 1] in picked; }
  }

  lemma IdIsListed(part: seq<Claim>, x: int)
    ensures x in Ids(part) <==> exists c :: c in part && c.id == x
  {
    if x in Ids(part) {
      var j :| 0 <= j < |part| && Ids(part)[j] == x;
      assert part[j] in part;
    }
    forall c | c in part && c.id == x ensures x in Ids(part) {
      var j :| 0 <= j < |part| && part[j] == c;
      assert Ids(part)[j] == x;
    }
  }

  lemma PickedInOrder(claims: seq<Claim>, audit: seq<ClaimAudit>, ids: seq<int>, listed: bool)
    requires Numbered(claims) && InDraftOrder(claims, audit)
    requires forall id :: 1 <= id <= |claims| && (id in ids) == listed <==> id in AuditIds(audit)
    ensures AuditIds(audit) == Ids(Select(claims, ids, listed))
  {
    SelectedIds(claims, ids, listed);
    assert Increasing(AuditIds(audit));
    hide InDraftOrder;
    hide Increasing;
    hide Numbered;
    IncreasingUnique(AuditIds(audit), Ids(Select(claims, ids, listed)));
  }

  lemma OrderFromPicked(claims: seq<Claim>, audit: seq<ClaimAudit>, ids: seq<int>, listed: bool)
    requires Numbered(claims) && AuditIds(audit) == Ids(Select(claims, ids, listed))
    ensures InDraftOrder(claims, audit)
    ensures forall id :: id in AuditIds(audit) <==> 1 <= id <= |claims| && (id in ids) == listed
  {
    SelectedIds(claims, ids, listed);
    hide Select;
    hide Ids;
    hide Numbered;
    var all := AuditIds(audit);
    assert forall i :: 0 <= i < |audit| ==> all[i] == audit[i].claimId && all[i] in all;
    assert forall i, j :: 0 <= i < j < |all| ==> all[i] < all[j];
  }

  lemma OwnExactly(claims: seq<Claim>, cited: seq<seq<int>>, approved: seq<ClaimAudit>)
    requires |cited| == |claims|
    ensures RestOnOwn(cited, approved) <==> forall i :: 0 <= i < |approved| ==>
              1 <= approved[i].claimId <= |claims| ==> OwnEvidence(approved[i], cited[approved[i].claimId - 1])
  {
    forall u: UnitAudit, ids: seq<int>
      ensures UnitRestsOn(u, ids) <==> u.supported && OwnSources(u.evidence, ids)
    {}
    hide UnitRestsOn;
    hide OwnSources;
  }

  /** What approvals have to be, whatever the reviewed part says. */
  lemma ApprovedExactly(claims: seq<Claim>, approved: seq<ClaimAudit>)
    requires Numbered(claims)
    ensures AuditIds(approved) == Ids(Pick(claims, AuditIds(approved))) <==> InDraftOrder(claims, approved)
  {
    var ids := AuditIds(approved);
    if ids == Ids(Pick(claims, ids)) { OrderFromPicked(claims, approved, ids, true); }
    if InDraftOrder(claims, approved) {
      assert forall id :: id in ids ==> 1 <= id <= |claims|;
      PickedInOrder(claims, approved, ids, true);
    }
  }

  /**
   Parts can be merged exactly when they are within their form, divide the claims between them, each in order, and
   every approved unit is supported by sources that the draft cites for its claim.
   */
  lemma MergeableExactly(claims: seq<Claim>, cited: seq<seq<int>>, approved: seq<ClaimAudit>, reviewed: seq<ClaimAudit>)
    requires Numbered(claims) && |cited| == |claims|
    ensures Mergeable(claims, cited, approved, reviewed) <==>
            && WithinForm(approved) && WithinForm(reviewed)
            && InDraftOrder(claims, approved) && InDraftOrder(claims, reviewed)
            && Divide(claims, approved, reviewed) && RestOnOwn(cited, approved)
  {
    var ids := AuditIds(approved);
    FormExactly(approved);
    FormExactly(reviewed);
    OwnExactly(claims, cited, approved);
    if Mergeable(claims, cited, approved, reviewed) {
      OrderFromPicked(claims, approved, ids, true);
      OrderFromPicked(claims, reviewed, ids, false);
    }
    if InDraftOrder(claims, approved) && InDraftOrder(claims, reviewed) && Divide(claims, approved, reviewed) {
      assert forall id :: id in AuditIds(approved) || id in AuditIds(reviewed) ==> 1 <= id <= |claims|;
      PickedInOrder(claims, approved, ids, true);
      PickedInOrder(claims, reviewed, ids, false);
    }
    hide Select;
    hide WithinForm;
    hide WellFormed;
    hide RestOnOwn;
    hide OwnEvidence;
  }
}
