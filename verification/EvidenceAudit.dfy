/**
 The positive-evidence audit of an answer: an audit is accepted only when it covers every claim and unit in
 order with real source passages, and then it yields the sources each claim cites.
 */
module EvidenceAudit {
  import opened Sequences
  import opened Wrappers

  /** One claim of the draft with the numbers of its units. */
  datatype Claim = Claim(id: int, text: string, units: seq<int>)

  datatype Reference = Reference(sourceId: int, passageIds: seq<int>)
  datatype UnitAudit = UnitAudit(unitId: int, supported: bool, evidence: seq<Reference>)
  datatype ClaimAudit = ClaimAudit(claimId: int, units: seq<UnitAudit>)

  /** The passages of each selected source that hold more than white space. */
  type Available = map<int, set<int>>

  /** `Rejected` criticizes the draft and allows another one; the others do not. */
  datatype AuditError = Integrity | Rejected | Unavailable

  const MAX_CLAIMS := 6
  const MAX_UNITS := 512
  const MAX_REFERENCES := 6
  const MAX_PASSAGES := 128
  const MAX_CITATIONS := 3

  // ---- What an audit has to look like ----

  predicate WellFormed(audit: seq<ClaimAudit>) {
    |audit| <= MAX_CLAIMS && forall i :: 0 <= i < |audit| ==> WellFormedClaim(audit[i])
  }

  predicate WellFormedClaim(a: ClaimAudit) {
    a.claimId >= 1 && 1 <= |a.units| <= MAX_UNITS && forall k :: 0 <= k < |a.units| ==> WellFormedUnit(a.units[k])
  }

  predicate WellFormedUnit(u: UnitAudit) {
    u.unitId >= 0 && |u.evidence| <= MAX_REFERENCES
    && forall k :: 0 <= k < |u.evidence| ==>
       u.evidence[k].sourceId >= 1 && 1 <= |u.evidence[k].passageIds| <= MAX_PASSAGES
  }

  predicate RealReference(ref: Reference, available: Available) {
    ref.sourceId in available && NoRepeats(ref.passageIds)
    && forall i :: 0 <= i < |ref.passageIds| ==> ref.passageIds[i] in available[ref.sourceId]
  }

  predicate SourcesOnce(evidence: seq<Reference>) {
    forall i, j :: 0 <= i < j < |evidence| ==> evidence[i].sourceId != evidence[j].sourceId
  }

  /** The references of a unit are real, one per source, and a supported unit has one. */
  predicate UnitIntegral(u: UnitAudit, available: Available) {
    && (forall k :: 0 <= k < |u.evidence| ==> RealReference(u.evidence[k], available))
    && SourcesOnce(u.evidence) && (u.supported ==> u.evidence != [])
  }

  predicate SameUnits(claim: Claim, a: ClaimAudit) {
    |a.units| == |claim.units| && forall k :: 0 <= k < |a.units| ==> a.units[k].unitId == claim.units[k]
  }

  predicate ClaimIntegral(claim: Claim, a: ClaimAudit, available: Available) {
    a.claimId == claim.id && SameUnits(claim, a)
      && forall k :: 0 <= k < |a.units| ==> UnitIntegral(a.units[k], available)
  }

  predicate Integral(claims: seq<Claim>, audit: seq<ClaimAudit>, available: Available) {
    && WellFormed(audit) && |audit| == |claims|
    && forall i :: 0 <= i < |claims| ==> ClaimIntegral(claims[i], audit[i], available)
  }

  // ---- The sources a claim cites ----

  /** The sources of a list of references, in order of first mention. */
  function Mention(proof: seq<int>, evidence: seq<Reference>): seq<int>
    decreases |evidence|
  {
    if evidence == [] then proof
    else
      var prior := Mention(proof, evidence[..|evidence| - 1]);
      var id := evidence[|evidence| - 1].sourceId;
      if id in prior then prior else prior + [id]
  }

  function ProofOf(units: seq<UnitAudit>): seq<int> {
    if units == [] then [] else Mention(ProofOf(units[..|units| - 1]), units[|units| - 1].evidence)
  }

  predicate Supported(a: ClaimAudit) {
    forall k :: 0 <= k < |a.units| ==> a.units[k].supported
  }

  predicate Clean(a: ClaimAudit) {
    Supported(a) && |ProofOf(a.units)| <= MAX_CITATIONS
  }

  predicate AllClean(audit: seq<ClaimAudit>) {
    forall i :: 0 <= i < |audit| ==> Clean(audit[i])
  }

  function Citations(audit: seq<ClaimAudit>): seq<seq<int>> {
    seq(|audit|, i requires 0 <= i < |audit| => ProofOf(audit[i].units))
  }

  /** A malformed audit is a failure of the review itself; only a well-formed one can criticize the draft. */
  function Review(claims: seq<Claim>, audit: seq<ClaimAudit>, available: Available): Result<seq<seq<int>>, AuditError> {
    if !Integral(claims, audit, available) then Failure(Integrity)
    else if !AllClean(audit) then Failure(Rejected)
    else Success(Citations(audit))
  }

  // ---- The review loop ----

  method ReviewUnit(u: UnitAudit, available: Available, proof: seq<int>) returns (r: Option<seq<int>>)
    ensures r == if UnitIntegral(u, available) then Some(Mention(proof, u.evidence)) else None
  {
    var seen, ids := {}, proof;
    for k := 0 to |u.evidence|
      invariant forall i :: 0 <= i < k ==> RealReference(u.evidence[i], available)
      invariant SourcesOnce(u.evidence[..k]) && seen == set i | 0 <= i < k :: u.evidence[i].sourceId
      invariant ids == Mention(proof, u.evidence[..k])
    {
      var ref := u.evidence[k];
      if !RealReference(ref, available) || ref.sourceId in seen {
        assert ref.sourceId in seen ==> !SourcesOnce(u.evidence);
        return None;
      }
      seen := seen + {ref.sourceId};
      assert u.evidence[..k + 1][..k] == u.evidence[..k];
      if ref.sourceId !in ids { ids := ids + [ref.sourceId]; }
    }
    assert u.evidence[..|u.evidence|] == u.evidence;
    if u.supported && u.evidence == [] { return None; }
    return Some(ids);
  }

  /** The state of the loop over the units of a claim. */
  ghost predicate UnitsReviewed(units: seq<UnitAudit>, available: Available, k: nat, proof: seq<int>, clean: bool) {
    && k <= |units| && (forall i :: 0 <= i < k ==> UnitIntegral(units[i], available)) && proof == ProofOf(units[..k])
    && (clean <==> forall i :: 0 <= i < k ==> units[i].supported)
  }

  lemma UnitReviewed(units: seq<UnitAudit>, available: Available, k: nat, proof: seq<int>, clean: bool)
    requires UnitsReviewed(units, available, k, proof, clean) && k < |units| && UnitIntegral(units[k], available)
    ensures UnitsReviewed(units, available, k + 1, Mention(proof, units[k].evidence), clean && units[k].supported)
  {
    assert units[..k + 1][..k] == units[..k];
    hide UnitIntegral;
    hide Mention;
  }

  lemma AllUnitsReviewed(claim: Claim, a: ClaimAudit, available: Available, proof: seq<int>, clean: bool)
    requires a.claimId == claim.id && SameUnits(claim, a) && UnitsReviewed(a.units, available, |a.units|, proof, clean)
    ensures ClaimIntegral(claim, a, available) && proof == ProofOf(a.units)
    ensures Clean(a) <==> clean && |proof| <= MAX_CITATIONS
  {
    assert a.units[..|a.units|] == a.units;
    hide UnitIntegral;
    hide ProofOf;
    hide SameUnits;
  }

  /** Goes through the units of one claim; `clean` tells whether the claim raised no issue. */
  method ReviewClaim(claim: Claim, a: ClaimAudit, available: Available) returns (r: Option<seq<int>>, clean: bool)
    requires a.claimId == claim.id
    ensures r == if ClaimIntegral(claim, a, available) then Some(ProofOf(a.units)) else None
    ensures r.Some? ==> (clean <==> Clean(a))
  {
    hide UnitIntegral;
    hide ProofOf;
    hide Mention;
    hide SameUnits;
    hide Clean;
    clean := true;
    if !SameUnits(claim, a) { return None, clean; }
    var proof := [];
    NoUnitsReviewed(a.units, available);
    for k := 0 to |a.units|
      invariant UnitsReviewed(a.units, available, k, proof, clean)
    {
      hide UnitsReviewed;
      var mentioned := ReviewUnit(a.units[k], available, proof);
      if mentioned.None? { return None, clean; }
      UnitReviewed(a.units, available, k, proof, clean);
      proof := mentioned.value;
      clean := clean && a.units[k].supported;
    }
    AllUnitsReviewed(claim, a, available, proof, clean);
    if |proof| > MAX_CITATIONS { clean := false; }
    return Some(proof), clean;
  }

  lemma NoUnitsReviewed(units: seq<UnitAudit>, available: Available)
    ensures UnitsReviewed(units, available, 0, [], true)
  {
  }

  predicate SameClaims(claims: seq<Claim>, audit: seq<ClaimAudit>) {
    |audit| == |claims| && forall i :: 0 <= i < |claims| ==> audit[i].claimId == claims[i].id
  }

  predicate IntegralUpTo(claims: seq<Claim>, audit: seq<ClaimAudit>, available: Available, n: nat)
    requires n <= |claims| && n <= |audit|
  {
    forall i :: 0 <= i < n ==> ClaimIntegral(claims[i], audit[i], available)
  }

  lemma IntegralParts(claims: seq<Claim>, audit: seq<ClaimAudit>, available: Available)
    ensures Integral(claims, audit, available) <==>
            WellFormed(audit) && SameClaims(claims, audit) && IntegralUpTo(claims, audit, available, |claims|)
  {
    hide WellFormed;
    hide SameUnits;
    hide UnitIntegral;
  }

  method ReviewCitations(claims: seq<Claim>, audit: seq<ClaimAudit>, available: Available)
    returns (r: Result<seq<seq<int>>, AuditError>)
    ensures r == Review(claims, audit, available)
    ensures r == Failure(Integrity) <==> !ReadsAll(claims, audit, available)
    ensures r.Success? ==> ProvenEach(claims, audit, available, r.value)
  {
    hide ProvenEach;
    hide ReadsAll;
    ReviewShows(claims, audit, available);
    IntegralParts(claims, audit, available);
    hide Integral;
    hide ClaimIntegral;
    hide Clean;
    hide WellFormed;
    if !WellFormed(audit) || !SameClaims(claims, audit) { return Failure(Integrity); }
    var issues, citations := false, [];
    for n := 0 to |claims|
      invariant IntegralUpTo(claims, audit, available, n)
      invariant |citations| == n && forall i :: 0 <= i < n ==> citations[i] == ProofOf(audit[i].units)
      invariant issues <==> exists i :: 0 <= i < n && !Clean(audit[i])
    {
      var proof, clean := ReviewClaim(claims[n], audit[n], available);
      if proof.None? { return Failure(Integrity); }
      citations := citations + [proof.value];
      if !clean { issues := true; }
    }
    if issues { return Failure(Rejected); }
    assert citations == Citations(audit);
    return Success(citations);
  }

  // ---- What an accepted audit gives ----

  predicate Mentions(units: seq<UnitAudit>, id: int) {
    exists k, j :: 0 <= k < |units| && 0 <= j < |units[k].evidence| && units[k].evidence[j].sourceId == id
  }

  predicate MentionedIn(evidence: seq<Reference>, id: int) {
    exists j :: 0 <= j < |evidence| && evidence[j].sourceId == id
  }

  lemma {:induction false} MentionFacts(proof: seq<int>, evidence: seq<Reference>)
    requires NoRepeats(proof)
    ensures NoRepeats(Mention(proof, evidence)) && proof <= Mention(proof, evidence)
    ensures forall id :: id in Mention(proof, evidence) <==> id in proof || MentionedIn(evidence, id)
    decreases |evidence|
  {
    if evidence != [] {
      var n := |evidence| - 1;
      MentionFacts(proof, evidence[..n]);
      var prior := Mention(proof, evidence[..n]);
      forall id ensures MentionedIn(evidence, id) <==> MentionedIn(evidence[..n], id) || id == evidence[n].sourceId {
        if MentionedIn(evidence[..n], id) {
          var j :| 0 <= j < n && evidence[..n][j].sourceId == id;
          assert evidence[j].sourceId == id;
        }
        if MentionedIn(evidence, id) {
          var j :| 0 <= j < |evidence| && evidence[j].sourceId == id;
          assert j < n ==> evidence[..n][j].sourceId == id;
        }
      }
    }
  }

  /** A claim cites each source that its units mention, once. */
  lemma {:induction false} ProofFacts(units: seq<UnitAudit>)
    ensures NoRepeats(ProofOf(units)) && forall id :: id in ProofOf(units) <==> Mentions(units, id)
  {
    if units != [] {
      var n := |units| - 1;
      ProofFacts(units[..n]);
      MentionFacts(ProofOf(units[..n]), units[n].evidence);
      forall id ensures Mentions(units, id) <==> Mentions(units[..n], id) || MentionedIn(units[n].evidence, id) {
        if Mentions(units, id) {
          var k, j :| 0 <= k < |units| && 0 <= j < |units[k].evidence| && units[k].evidence[j].sourceId == id;
          assert k < n ==> units[..n][k] == units[k];
        }
        if Mentions(units[..n], id) {
          var k, j :| 0 <= k < n && 0 <= j < |units[..n][k].evidence| && units[..n][k].evidence[j].sourceId == id;
          assert units[k].evidence[j].sourceId == id;
        }
      }
    }
  }

  /** Source `a` is mentioned somewhere before anything mentions `b`. */
  ghost predicate MentionedBefore(units: seq<UnitAudit>, a: int, b: int) {
    exists k, j :: MentionAt(units, a, k, j)
                   && forall l, i :: MentionAt(units, b, l, i) ==> k < l || (k == l && j < i)
  }

  ghost predicate MentionAt(units: seq<UnitAudit>, id: int, k: int, j: int) {
    0 <= k < |units| && 0 <= j < |units[k].evidence| && units[k].evidence[j].sourceId == id
  }

  /** Exactly the mentioned sources, each once, in order of first mention. */
  ghost predicate ListsMentions(units: seq<UnitAudit>, ids: seq<int>) {
    && NoRepeats(ids) && (forall id :: id in ids <==> Mentions(units, id))
    && forall p, q :: 0 <= p < q < |ids| ==> MentionedBefore(units, ids[p], ids[q])
  }

  /** The sources of the units before `k` and of the first `j` references of unit `k`. */
  function SoFar(units: seq<UnitAudit>, k: nat, j: nat): seq<int>
    requires k < |units| && j <= |units[k].evidence|
  {
    Mention(ProofOf(units[..k]), units[k].evidence[..j])
  }

  /** A mention up to there, in reading order. */
  ghost predicate MentionedBy(units: seq<UnitAudit>, id: int, k: int, j: int) {
    exists l, i :: MentionAt(units, id, l, i) && (l < k || (l == k && i < j))
  }

  lemma SoFarMeans(units: seq<UnitAudit>, k: nat, j: nat, id: int)
    requires k < |units| && j <= |units[k].evidence|
    ensures id in SoFar(units, k, j) <==> MentionedBy(units, id, k, j)
  {
    ProofFacts(units[..k]);
    MentionFacts(ProofOf(units[..k]), units[k].evidence[..j]);
    if Mentions(units[..k], id) {
      var l, i :| 0 <= l < k && 0 <= i < |units[..k][l].evidence| && units[..k][l].evidence[i].sourceId == id;
      assert MentionAt(units, id, l, i);
    }
    if MentionedIn(units[k].evidence[..j], id) {
      var i :| 0 <= i < j && units[k].evidence[..j][i].sourceId == id;
      assert MentionAt(units, id, k, i);
    }
    forall l, i | MentionAt(units, id, l, i) && (l < k || (l == k && i < j)) ensures id in SoFar(units, k, j) {
      if l < k { assert units[..k][l].evidence[i].sourceId == id; }
      else { assert units[k].evidence[..j][i].sourceId == id; }
    }
  }

  lemma {:induction false} FirstMentions(units: seq<UnitAudit>, k: nat, j: nat)
    requires k < |units| && j <= |units[k].evidence|
    ensures var ids := SoFar(units, k, j);
            forall p, q :: 0 <= p < q < |ids| ==> MentionedBefore(units, ids[p], ids[q])
    decreases k, j
  {
    if j > 0 {
      FirstMentions(units, k, j - 1);
      NewMention(units, k, j - 1);
    } else if k > 0 {
      FirstMentions(units, k - 1, |units[k - 1].evidence|);
      assert units[..k][..k - 1] == units[..k - 1];
      assert units[k - 1].evidence[..|units[k - 1].evidence|] == units[k - 1].evidence;
      assert SoFar(units, k, 0) == SoFar(units, k - 1, |units[k - 1].evidence|);
    }
  }

  /** A source that joins the list is mentioned here for the first time, after all that are on it. */
  lemma NewMention(units: seq<UnitAudit>, k: nat, j: nat)
    requires k < |units| && j < |units[k].evidence|
    ensures var was, ids, id := SoFar(units, k, j), SoFar(units, k, j + 1), units[k].evidence[j].sourceId;
            && ids == (if id in was then was else was + [id])
            && (id !in was ==> forall a :: a in was ==> MentionedBefore(units, a, id))
  {
    var was, id := SoFar(units, k, j), units[k].evidence[j].sourceId;
    assert units[k].evidence[..j + 1][..j] == units[k].evidence[..j];
    SoFarMeans(units, k, j, id);
    forall a | a in was && id !in was ensures MentionedBefore(units, a, id) {
      SoFarMeans(units, k, j, a);
      var l, i :| MentionAt(units, a, l, i) && (l < k || (l == k && i < j));
      forall m, h | MentionAt(units, id, m, h) ensures l < m || (l == m && i < h) {
        assert !(m < k || (m == k && h < j));
      }
    }
  }

  lemma ProofListsMentions(units: seq<UnitAudit>)
    ensures ListsMentions(units, ProofOf(units))
  {
    ProofFacts(units);
    if units != [] {
      var k := |units| - 1;
      assert units[k].evidence[..|units[k].evidence|] == units[k].evidence;
      FirstMentions(units, k, |units[k].evidence|);
      assert ProofOf(units) == SoFar(units, k, |units[k].evidence|);
    }
    hide Mentions;
    hide MentionedBefore;
    hide SoFar;
    hide ProofOf;
  }

  /** The reference names a source at hand and passages that this source has, each once. */
  ghost predicate PointsToPassages(ref: Reference, available: Available) {
    && ref.sourceId in available
    && (forall i :: 0 <= i < |ref.passageIds| ==> ref.passageIds[i] in available[ref.sourceId])
    && forall i, j :: 0 <= i < j < |ref.passageIds| ==> ref.passageIds[i] != ref.passageIds[j]
  }

  /** Evidence at real passages of different sources. */
  ghost predicate RealEvidence(evidence: seq<Reference>, available: Available) {
    && (forall j :: 0 <= j < |evidence| ==> PointsToPassages(evidence[j], available))
    && forall i, j :: 0 <= i < j < |evidence| ==> evidence[i].sourceId != evidence[j].sourceId
  }

  ghost predicate SameNumbers(claim: Claim, a: ClaimAudit) {
    && a.claimId == claim.id && |a.units| == |claim.units|
    && forall k :: 0 <= k < |a.units| ==> a.units[k].unitId == claim.units[k]
  }

  /** The claim's units in order, each with real evidence, and with some where it is called supported. */
  ghost predicate Reads(claim: Claim, a: ClaimAudit, available: Available) {
    SameNumbers(claim, a) && forall k :: 0 <= k < |a.units| ==>
      RealEvidence(a.units[k].evidence, available) && (a.units[k].supported ==> |a.units[k].evidence| >= 1)
  }

  /** Every unit of the claim is supported by real evidence, and `ids` are the one to three sources mentioned. */
  ghost predicate ProvenBy(claim: Claim, a: ClaimAudit, available: Available, ids: seq<int>) {
    && SameNumbers(claim, a) && |a.units| >= 1
    && (forall k :: 0 <= k < |a.units| ==>
          a.units[k].supported && |a.units[k].evidence| >= 1 && RealEvidence(a.units[k].evidence, available))
    && ListsMentions(a.units, ids) && 1 <= |ids| <= 3
  }

  ghost predicate FourSources(a: ClaimAudit) {
    exists four: set<int> :: |four| == 4 && AllMentioned(a, four)
  }

  ghost predicate AllMentioned(a: ClaimAudit, ids: set<int>) {
    forall id :: id in ids ==> Mentions(a.units, id)
  }

  lemma ReadsExactly(claim: Claim, a: ClaimAudit, available: Available)
    ensures ClaimIntegral(claim, a, available) <==> Reads(claim, a, available)
  {
    forall u: UnitAudit
      ensures UnitIntegral(u, available) <==>
              RealEvidence(u.evidence, available) && (u.supported ==> |u.evidence| >= 1)
    {
      forall ref: Reference ensures RealReference(ref, available) <==> PointsToPassages(ref, available) {}
    }
    hide UnitIntegral;
    hide RealEvidence;
  }

  function SetOf(ids: seq<int>): set<int> {
    set id | id in ids
  }

  lemma {:induction false} AsManyAs(ids: seq<int>)
    requires NoRepeats(ids)
    ensures |SetOf(ids)| == |ids|
  {
    if ids != [] {
      var n := |ids| - 1;
      AsManyAs(ids[..n]);
      assert ids == ids[..n] + [ids[n]];
      assert SetOf(ids) == SetOf(ids[..n]) + {ids[n]};
    }
  }

  lemma TooManyExactly(a: ClaimAudit)
    ensures |ProofOf(a.units)| > MAX_CITATIONS <==> FourSources(a)
  {
    var ids := ProofOf(a.units);
    ProofFacts(a.units);
    if |ids| > 3 {
      AsManyAs(ids[..4]);
      assert forall id :: id in SetOf(ids[..4]) ==> id in ids;
      assert |SetOf(ids[..4])| == 4 && AllMentioned(a, SetOf(ids[..4]));
    }
    hide Mentions;
    if FourSources(a) {
      var four: set<int> :| |four| == 4 && AllMentioned(a, four);
      AsManyAs(ids);
      assert forall id :: id in four ==> id in SetOf(ids);
      assert SetOf(ids) == four + (SetOf(ids) - four);
    }
  }

  /** The form of an audit: up to six claims, of 1 to 512 units, of up to six references, of 1 to 128 passages. */
  ghost predicate WithinForm(audit: seq<ClaimAudit>) {
    |audit| <= 6 && forall i :: 0 <= i < |audit| ==> ClaimWithinForm(audit[i])
  }

  ghost predicate ClaimWithinForm(a: ClaimAudit) {
    a.claimId > 0 && 0 < |a.units| <= 512 && forall k :: 0 <= k < |a.units| ==> UnitWithinForm(a.units[k])
  }

  ghost predicate UnitWithinForm(u: UnitAudit) {
    u.unitId >= 0 && |u.evidence| <= 6
    && forall j :: 0 <= j < |u.evidence| ==> u.evidence[j].sourceId > 0 && 0 < |u.evidence[j].passageIds| <= 128
  }

  lemma FormExactly(audit: seq<ClaimAudit>)
    ensures WellFormed(audit) <==> WithinForm(audit)
  {
    forall u: UnitAudit ensures WellFormedUnit(u) <==> UnitWithinForm(u) {}
    hide WellFormedUnit;
    hide UnitWithinForm;
    forall a: ClaimAudit ensures WellFormedClaim(a) <==> ClaimWithinForm(a) {}
    hide WellFormedClaim;
    hide ClaimWithinForm;
  }

  /** An audit within the limits of its form that reads every claim, and nothing else, at real passages. */
  ghost predicate ReadsAll(claims: seq<Claim>, audit: seq<ClaimAudit>, available: Available) {
    WithinForm(audit) && |audit| == |claims| && forall i :: 0 <= i < |claims| ==> Reads(claims[i], audit[i], available)
  }

  /**
   Which audits fail and how: one that does not read every claim at real passages is an integrity failure, whatever
   else it says; otherwise it is a rejection exactly when a unit is not supported or a claim mentions four sources.
   */
  lemma ReviewErrorsExactly(claims: seq<Claim>, audit: seq<ClaimAudit>, available: Available)
    ensures var r := Review(claims, audit, available);
            && (r == Failure(Integrity) <==> !ReadsAll(claims, audit, available))
            && (r == Failure(Rejected) <==>
                  ReadsAll(claims, audit, available)
                  && exists i :: 0 <= i < |audit| &&
                       (FourSources(audit[i]) || exists k :: 0 <= k < |audit[i].units| && !audit[i].units[k].supported))
            && r != Failure(Unavailable)
  {
    forall i | 0 <= i < |claims| && i < |audit|
      ensures ClaimIntegral(claims[i], audit[i], available) <==> Reads(claims[i], audit[i], available)
    { ReadsExactly(claims[i], audit[i], available); }
    forall i | 0 <= i < |audit| ensures |ProofOf(audit[i].units)| > MAX_CITATIONS <==> FourSources(audit[i]) {
      TooManyExactly(audit[i]);
    }
    FormExactly(audit);
    hide WithinForm;
    hide ClaimIntegral;
    hide Reads;
    hide WellFormed;
    hide ProofOf;
    hide FourSources;
  }

  /** One reference to a passage that its source does not have fails the review, however the units are judged. */
  lemma ForgedPassageFails(claims: seq<Claim>, audit: seq<ClaimAudit>, available: Available, i: nat, k: nat, j: nat,
                           passage: int)
    requires i < |audit| && k < |audit[i].units| && j < |audit[i].units[k].evidence|
    requires var ref := audit[i].units[k].evidence[j];
             passage in ref.passageIds && (ref.sourceId in available ==> passage !in available[ref.sourceId])
    ensures Review(claims, audit, available) == Failure(Integrity)
  {
    ReviewErrorsExactly(claims, audit, available);
    var ref := audit[i].units[k].evidence[j];
    var h :| 0 <= h < |ref.passageIds| && ref.passageIds[h] == passage;
    assert !PointsToPassages(ref, available);
    assert !RealEvidence(audit[i].units[k].evidence, available);
    assert i < |claims| ==> !Reads(claims[i], audit[i], available);
  }

  /**
   An accepted audit proves every claim, unit by unit, at real passages, and gives it the one to three sources that
   its units mention.
   */
  lemma AcceptedCitations(claims: seq<Claim>, audit: seq<ClaimAudit>, available: Available, i: nat)
    requires Review(claims, audit, available).Success? && i < |claims|
    ensures var c := Review(claims, audit, available).value;
            && |c| == |audit| == |claims| && ProvenBy(claims[i], audit[i], available, c[i])
            && forall id :: id in c[i] ==> id in available
  {
    var a, units := audit[i], audit[i].units;
    ProofListsMentions(units);
    assert ClaimIntegral(claims[i], a, available) && WellFormedClaim(a) && Clean(a);
    ReadsExactly(claims[i], a, available);
    assert RealEvidence(units[0].evidence, available) && MentionAt(units, units[0].evidence[0].sourceId, 0, 0);
    assert Mentions(units, units[0].evidence[0].sourceId);
    forall id | Mentions(units, id) ensures id in available {
      var k, j :| 0 <= k < |units| && 0 <= j < |units[k].evidence| && units[k].evidence[j].sourceId == id;
      assert RealEvidence(units[k].evidence, available) && PointsToPassages(units[k].evidence[j], available);
    }
    hide ListsMentions;
    hide RealEvidence;
  }

  /** Every claim is proved by its own audit and cites the sources that this mentions. */
  ghost predicate ProvenEach(claims: seq<Claim>, audit: seq<ClaimAudit>, available: Available,
                             citations: seq<seq<int>>) {
    |audit| == |citations| == |claims|
    && forall i :: 0 <= i < |claims| ==> ProvenBy(claims[i], audit[i], available, citations[i])
  }

  lemma AcceptedIsProven(claims: seq<Claim>, audit: seq<ClaimAudit>, available: Available)
    requires Review(claims, audit, available).Success?
    ensures ProvenEach(claims, audit, available, Review(claims, audit, available).value)
  {
    assert |audit| == |claims| && |Citations(audit)| == |claims|;
    forall i | 0 <= i < |claims| ensures ProvenBy(claims[i], audit[i], available, Citations(audit)[i]) {
      AcceptedCitations(claims, audit, available, i);
    }
  }

  lemma ReviewShows(claims: seq<Claim>, audit: seq<ClaimAudit>, available: Available)
    ensures var r := Review(claims, audit, available);
            && (r == Failure(Integrity) <==> !ReadsAll(claims, audit, available))
            && (r.Success? ==> ProvenEach(claims, audit, available, r.value))
  {
    ReviewErrorsExactly(claims, audit, available);
    if Review(claims, audit, available).Success? { AcceptedIsProven(claims, audit, available); }
  }
}
