/**
 The preparation plan: what a provider proposes is filtered, reviewed and ordered. Whatever comes in, what
 comes out of the filters is a plan that can be checkpointed.
 */
module PlanPipeline {
  import opened Sequences
  import opened Text
  import opened Wrappers

  datatype Kind = Character | Relationship | Event | Motive | Summary | FollowUp

  /** A question as the provider returns it. */
  datatype Planned = Planned(question: string, kind: Kind, basis: seq<int>, parent: Option<int>)

  datatype Question = Question(id: int, text: string, kind: Kind, basis: seq<int>, parent: Option<int>)

  datatype Audit = Audit(questionId: int, safe: bool, basis: seq<int>)

  datatype PlanError = InvalidPlan | IncompleteReview

  const MAX_QUESTIONS := 12

  // ---- Schemas ----

  predicate SchemaOk(text: string, basis: seq<int>) {
    2 <= |text| <= 300 && 1 <= |basis| <= 8 && forall i :: 0 <= i < |basis| ==> basis[i] >= 1
  }

  predicate PlanSchemaOk(plan: seq<Planned>) {
    |plan| <= MAX_QUESTIONS && forall i :: 0 <= i < |plan| ==> SchemaOk(plan[i].question, plan[i].basis)
  }

  predicate Known(basis: seq<int>, facts: set<int>) {
    forall i :: 0 <= i < |basis| ==> basis[i] in facts
  }

  function SkipSpaces(s: string): (r: string)
    ensures |r| <= |s|
  {
    if s != "" && IsSpace(s[0]) then SkipSpaces(s[1..]) else s
  }

  function DropSpaces(s: string): (r: string)
    ensures |r| <= |s|
  {
    if s != "" && IsSpace(s[|s| - 1]) then DropSpaces(s[..|s| - 1]) else s
  }

  /** `strip()`. */
  function Strip(s: string): (r: string)
    ensures |r| <= |s|
  {
    DropSpaces(SkipSpaces(s))
  }

  // ---- What a checkpoint accepts ----

  function Wordings(qs: seq<Question>, key: string -> string): set<string> {
    set i | 0 <= i < |qs| :: key(qs[i].text)
  }

  /** The ids of the primary questions. */
  function Primaries(qs: seq<Question>): set<int> {
    set i | 0 <= i < |qs| && qs[i].kind != FollowUp :: qs[i].id
  }

  lemma Appended(qs: seq<Question>, q: Question, key: string -> string)
    ensures Wordings(qs + [q], key) == Wordings(qs, key) + {key(q.text)}
    ensures Primaries(qs + [q]) == Primaries(qs) + (if q.kind == FollowUp then {} else {q.id})
  {
    var r := qs + [q];
    assert r[|qs|] == q && forall i :: 0 <= i < |qs| ==> r[i] == qs[i];
    forall x | x in Wordings(qs, key) + {key(q.text)} ensures x in Wordings(r, key) {
      if x in Wordings(qs, key) { var i :| 0 <= i < |qs| && key(qs[i].text) == x; assert key(r[i].text) == x; }
    }
    forall x | x in Primaries(qs) ensures x in Primaries(r) {
      var i :| 0 <= i < |qs| && qs[i].kind != FollowUp && qs[i].id == x;
      assert r[i].id == x;
    }
  }

  /** A follow-up has an earlier primary parent, and only a follow-up has a parent. */
  predicate ParentOk(prior: seq<Question>, kind: Kind, parent: Option<int>) {
    if kind == FollowUp then parent.Some? && parent.value in Primaries(prior) else parent.None?
  }

  /** One question of a plan that can be saved, given the questions before it; `key` compares wordings. */
  predicate SaveableNext(prior: seq<Question>, q: Question, key: string -> string) {
    && 1 <= q.id <= MAX_QUESTIONS && (prior != [] ==> prior[|prior| - 1].id < q.id)
    && SchemaOk(q.text, q.basis) && NoRepeats(q.basis)
    && key(q.text) != "" && key(q.text) !in Wordings(prior, key) && ParentOk(prior, q.kind, q.parent)
  }

  predicate SaveableUpTo(qs: seq<Question>, key: string -> string, n: nat)
    requires n <= |qs|
  {
    forall i :: 0 <= i < n ==> SaveableNext(qs[..i], qs[i], key)
  }

  predicate Saveable(qs: seq<Question>, key: string -> string) {
    |qs| <= MAX_QUESTIONS && SaveableUpTo(qs, key, |qs|)
  }

  lemma SaveableSnoc(qs: seq<Question>, q: Question, key: string -> string)
    requires SaveableUpTo(qs, key, |qs|) && SaveableNext(qs, q, key)
    ensures SaveableUpTo(qs + [q], key, |qs| + 1)
  {
    hide SaveableNext;
    forall i | 0 <= i < |qs| + 1 ensures SaveableNext((qs + [q])[..i], (qs + [q])[i], key) {
      assert (qs + [q])[..i] == qs[..i];
      assert qs[..|qs|] == qs;
    }
  }

  /** A saved plan as it is read back. */
  datatype SavedPlan = SavedPlan(reviewed: bool, factsHash: string, questions: seq<Question>)

  predicate HexDigest(s: string) {
    |s| == 64 && forall i :: 0 <= i < |s| ==> '0' <= s[i] <= '9' || 'a' <= s[i] <= 'f'
  }

  /** Checks one row of a saved plan against the wordings and the parents seen so far. */
  method CheckNext(prior: seq<Question>, q: Question, key: string -> string, seen: set<string>, parents: set<int>)
    returns (ok: bool)
    requires seen == Wordings(prior, key) && parents == Primaries(prior)
    ensures ok <==> SaveableNext(prior, q, key)
  {
    hide Wordings;
    hide Primaries;
    if !(1 <= q.id <= MAX_QUESTIONS) || (prior != [] && q.id <= prior[|prior| - 1].id) { return false; }
    if !SchemaOk(q.text, q.basis) { return false; }
    if key(q.text) == "" || key(q.text) in seen || !NoRepeats(q.basis) { return false; }
    if q.kind == FollowUp && (q.parent.None? || q.parent.value !in parents) { return false; }
    if q.kind != FollowUp && q.parent.Some? { return false; }
    return true;
  }

  method ValidSavedPlan(value: SavedPlan, key: string -> string) returns (ok: bool)
    ensures ok <==> HexDigest(value.factsHash) && Saveable(value.questions, key)
  {
    hide SaveableNext;
    hide Wordings;
    hide Primaries;
    var qs := value.questions;
    if !HexDigest(value.factsHash) || |qs| > MAX_QUESTIONS { return false; }
    var seen, parents := {}, {};
    NothingYet(key);
    for n := 0 to |qs|
      invariant SaveableUpTo(qs, key, n) && seen == Wordings(qs[..n], key) && parents == Primaries(qs[..n])
    {
      var q := qs[n];
      assert qs[..n + 1] == qs[..n] + [q];
      Appended(qs[..n], q, key);
      var next := CheckNext(qs[..n], q, key, seen, parents);
      if !next { return false; }
      if q.kind != FollowUp { parents := parents + {q.id}; }
      seen := seen + {key(q.text)};
    }
    return true;
  }

  lemma NothingYet(key: string -> string)
    ensures Wordings([], key) == {} && Primaries([]) == {}
  {
  }

  // ---- Candidates ----

  /** A proposal that is kept, given the candidates before it. */
  predicate Eligible(prior: seq<Question>, p: Planned, facts: set<int>, key: string -> string) {
    && |Strip(p.question)| >= 2 && key(Strip(p.question)) != "" && key(Strip(p.question)) !in Wordings(prior, key)
    && NoRepeats(p.basis) && Known(p.basis, facts) && ParentOk(prior, p.kind, p.parent)
  }

  function AsCandidate(p: Planned, id: int): Question {
    Question(id, Strip(p.question), p.kind, p.basis, p.parent)
  }

  /** The candidates of the first `n` proposals. */
  function Kept(plan: seq<Planned>, facts: set<int>, key: string -> string, n: nat): seq<Question>
    requires n <= |plan|
  {
    if n == 0 then []
    else
      var prior := Kept(plan, facts, key, n - 1);
      if Eligible(prior, plan[n - 1], facts, key) then prior + [AsCandidate(plan[n - 1], n)] else prior
  }

  method ValidatedCandidates(plan: seq<Planned>, facts: set<int>, key: string -> string)
    returns (r: Result<seq<Question>, PlanError>)
    ensures r == if PlanSchemaOk(plan) then Success(Kept(plan, facts, key, |plan|)) else Failure(InvalidPlan)
  {
    hide Wordings;
    hide Primaries;
    hide Known;
    hide NoRepeats;
    hide Strip;
    if !PlanSchemaOk(plan) { return Failure(InvalidPlan); }
    hide PlanSchemaOk;
    var seen, parents, candidates := {}, {}, [];
    NothingYet(key);
    for n := 0 to |plan|
      invariant candidates == Kept(plan, facts, key, n) && seen == Wordings(candidates, key)
                && parents == Primaries(candidates)
    {
      var p := plan[n];
      var text := Strip(p.question);
      if |text| < 2 || key(text) == "" || key(text) in seen || !NoRepeats(p.basis) || !Known(p.basis, facts) {
        continue;
      }
      if p.kind == FollowUp {
        if p.parent.None? || p.parent.value !in parents { continue; }
      } else if p.parent.Some? {
        continue;
      }
      Appended(candidates, AsCandidate(p, n + 1), key);
      candidates := candidates + [AsCandidate(p, n + 1)];
      seen := seen + {key(text)};
      if p.kind != FollowUp { parents := parents + {n + 1}; }
    }
    return Success(candidates);
  }

  lemma EligibleIsSaveable(prior: seq<Question>, p: Planned, facts: set<int>, key: string -> string, n: nat)
    requires Eligible(prior, p, facts, key) && SchemaOk(p.question, p.basis) && 1 <= n <= MAX_QUESTIONS
    requires prior != [] ==> prior[|prior| - 1].id < n
    ensures SaveableNext(prior, AsCandidate(p, n), key) && Known(p.basis, facts)
  {
  }

  /** Each candidate is a proposal under its own number, stripped and otherwise unchanged. */
  predicate FromPlan(r: seq<Question>, plan: seq<Planned>, facts: set<int>, n: nat)
    requires n <= |plan|
  {
    forall i :: 0 <= i < |r| ==>
      1 <= r[i].id <= n && r[i] == AsCandidate(plan[r[i].id - 1], r[i].id) && Known(r[i].basis, facts)
  }

  /** Whatever the provider proposes, the candidates can be saved and rest on known facts. */
  lemma {:induction false} KeptIsSaveable(plan: seq<Planned>, facts: set<int>, key: string -> string, n: nat)
    requires PlanSchemaOk(plan) && n <= |plan|
    ensures var r := Kept(plan, facts, key, n); |r| <= n && SaveableUpTo(r, key, |r|) && FromPlan(r, plan, facts, n)
  {
    hide Known;
    hide AsCandidate;
    hide SaveableUpTo;
    hide SaveableNext;
    hide Eligible;
    hide SchemaOk;
    if n == 0 {
      NothingToSave(key);
    } else {
      var prior, p := Kept(plan, facts, key, n - 1), plan[n - 1];
      KeptIsSaveable(plan, facts, key, n - 1);
      assert prior != [] ==> prior[|prior| - 1].id <= n - 1;
      if Eligible(prior, p, facts, key) {
        var c := AsCandidate(p, n);
        EligibleIsSaveable(prior, p, facts, key, n);
        SaveableSnoc(prior, c, key);
        CandidateFields(p, n);
        FromPlanSnoc(prior, c, plan, facts, n);
        assert Kept(plan, facts, key, n) == prior + [c];
      } else {
        FromPlanLater(prior, plan, facts, n);
        assert Kept(plan, facts, key, n) == prior;
      }
      hide FromPlan;
      hide Kept;
    }
  }

  lemma FromPlanLater(prior: seq<Question>, plan: seq<Planned>, facts: set<int>, n: nat)
    requires 0 < n <= |plan| && FromPlan(prior, plan, facts, n - 1)
    ensures FromPlan(prior, plan, facts, n)
  {
  }

  lemma FromPlanSnoc(prior: seq<Question>, c: Question, plan: seq<Planned>, facts: set<int>, n: nat)
    requires 0 < n <= |plan| && FromPlan(prior, plan, facts, n - 1) && c == AsCandidate(plan[n - 1], n) && c.id == n
             && Known(c.basis, facts)
    ensures FromPlan(prior + [c], plan, facts, n)
  {
    hide AsCandidate;
  }

  lemma NothingToSave(key: string -> string)
    ensures SaveableUpTo([], key, 0)
  {
  }

  lemma CandidateFields(p: Planned, n: nat)
    ensures AsCandidate(p, n).id == n && AsCandidate(p, n).basis == p.basis
  {
  }

  // ---- Which proposals become candidates ----

  /** `r` is `s` without the white space around it. */
  ghost predicate Trimmed(s: string, r: string) {
    exists i, j :: 0 <= i <= j <= |s| && r == s[i..j]
      && (forall k :: 0 <= k < i || j <= k < |s| ==> IsSpace(s[k]))
      && (r != "" ==> !IsSpace(r[0]) && !IsSpace(r[|r| - 1]))
  }

  lemma {:induction false} SkipsToText(s: string) returns (i: nat)
    ensures i <= |s| && SkipSpaces(s) == s[i..] && (forall k :: 0 <= k < i ==> IsSpace(s[k]))
    ensures i < |s| ==> !IsSpace(s[i])
  {
    i := 0;
    if s != "" && IsSpace(s[0]) {
      var j := SkipsToText(s[1..]);
      i := j + 1;
      assert forall k :: 1 <= k < i ==> s[k] == s[1..][k - 1];
    }
  }

  lemma {:induction false} DropsToText(s: string) returns (j: nat)
    ensures j <= |s| && DropSpaces(s) == s[..j] && (forall k :: j <= k < |s| ==> IsSpace(s[k]))
    ensures j > 0 ==> !IsSpace(s[j - 1])
  {
    j := |s|;
    if s != "" && IsSpace(s[|s| - 1]) {
      j := DropsToText(s[..|s| - 1]);
      assert s[..|s| - 1][..j] == s[..j];
    }
  }

  lemma StripTrims(s: string)
    ensures Trimmed(s, Strip(s))
  {
    var i := SkipsToText(s);
    var text := s[i..];
    var j := DropsToText(text);
    assert Strip(s) == s[i..i + j];
    forall k | 0 <= k < i || i + j <= k < |s| ensures IsSpace(s[k]) {
      if i + j <= k { assert s[k] == text[k - i]; }
    }
  }

  /**
   Proposal `i` says something under a wording that none of the candidates at `at` before it has, rests on known
   facts, each named once, and has a primary candidate before it as its parent exactly if it is a follow-up.
   */
  ghost predicate Stands(plan: seq<Planned>, facts: set<int>, key: string -> string, i: nat, at: seq<int>)
    requires i < |plan|
  {
    var p := plan[i];
    && |Strip(p.question)| >= 2 && key(Strip(p.question)) != ""
    && (forall j :: 0 <= j < i && j in at ==> key(Strip(plan[j].question)) != key(Strip(p.question)))
    && (forall k :: 0 <= k < |p.basis| ==> p.basis[k] in facts)
    && (forall j, k :: 0 <= j < k < |p.basis| ==> p.basis[j] != p.basis[k])
    && if p.kind == FollowUp then
         p.parent.Some? && 1 <= p.parent.value <= i && p.parent.value - 1 in at
         && plan[p.parent.value - 1].kind != FollowUp
       else p.parent.None?
  }

  ghost predicate PositionsStanding(plan: seq<Planned>, facts: set<int>, key: string -> string, n: nat, at: seq<int>)
    requires n <= |plan|
  {
    && (forall k :: 0 <= k < |at| ==> 0 <= at[k] < n)
    && (forall j, k :: 0 <= j < k < |at| ==> at[j] < at[k])
    && forall i :: 0 <= i < n ==> (i in at <==> Stands(plan, facts, key, i, at))
  }

  /** The candidates at those positions, numbered from one by position. */
  ghost predicate CandidatesAt(r: seq<Question>, plan: seq<Planned>, at: seq<int>) {
    |r| == |at| && forall k :: 0 <= k < |at| ==>
      0 <= at[k] < |plan| && r[k] == Question(at[k] + 1, Strip(plan[at[k]].question), plan[at[k]].kind,
                                              plan[at[k]].basis, plan[at[k]].parent)
  }

  /** Exactly the proposals that stand become candidates, in order, under their own numbers. */
  lemma {:induction false} KeptAreStanding(plan: seq<Planned>, facts: set<int>, key: string -> string, n: nat)
    returns (at: seq<int>)
    requires n <= |plan|
    ensures PositionsStanding(plan, facts, key, n, at) && CandidatesAt(Kept(plan, facts, key, n), plan, at)
  {
    hide Eligible;
    hide Strip;
    hide PositionsStanding;
    hide CandidatesAt;
    at := [];
    if n == 0 {
      NoneStands(plan, facts, key);
    } else {
      var before := KeptAreStanding(plan, facts, key, n - 1);
      var prior := Kept(plan, facts, key, n - 1);
      EligibleStands(plan, facts, key, prior, n - 1, before);
      hide Stands;
      at := if Eligible(prior, plan[n - 1], facts, key) then before + [n - 1] else before;
      OneMoreStanding(plan, facts, key, n, before, at);
      OneMoreCandidate(prior, plan, before, n - 1);
    }
  }

  lemma NoneStands(plan: seq<Planned>, facts: set<int>, key: string -> string)
    ensures PositionsStanding(plan, facts, key, 0, []) && CandidatesAt([], plan, [])
  {
  }

  lemma OneMoreCandidate(r: seq<Question>, plan: seq<Planned>, at: seq<int>, i: nat)
    requires CandidatesAt(r, plan, at) && i < |plan|
    ensures CandidatesAt(r + [AsCandidate(plan[i], i + 1)], plan, at + [i])
  {
    hide Strip;
  }

  lemma EligibleStands(plan: seq<Planned>, facts: set<int>, key: string -> string, prior: seq<Question>, i: nat,
                       at: seq<int>)
    requires i < |plan| && CandidatesAt(prior, plan, at) && PositionsStanding(plan, facts, key, i, at)
    ensures Eligible(prior, plan[i], facts, key) <==> Stands(plan, facts, key, i, at)
  {
    hide Strip;
    var p := plan[i];
    assert forall k :: 0 <= k < |at| ==> 0 <= at[k] < i;
    hide PositionsStanding;
    WordingsAt(prior, plan, key, i, at, key(Strip(p.question)));
    if p.parent.Some? { ParentsAt(prior, plan, i, at, p.parent.value); }
    hide Wordings;
    hide Primaries;
    hide CandidatesAt;
    assert Known(p.basis, facts) <==> forall k :: 0 <= k < |p.basis| ==> p.basis[k] in facts;
  }

  lemma WordingsAt(prior: seq<Question>, plan: seq<Planned>, key: string -> string, i: nat, at: seq<int>, w: string)
    requires i <= |plan| && CandidatesAt(prior, plan, at) && forall k :: 0 <= k < |at| ==> 0 <= at[k] < i
    ensures w !in Wordings(prior, key) <==>
            forall j :: 0 <= j < i && j in at ==> key(Strip(plan[j].question)) != w
  {
    hide Strip;
    forall j | 0 <= j < i && j in at && key(Strip(plan[j].question)) == w ensures w in Wordings(prior, key) {
      var k :| 0 <= k < |at| && at[k] == j;
      assert key(prior[k].text) == w;
    }
    if w in Wordings(prior, key) {
      var k :| 0 <= k < |prior| && key(prior[k].text) == w;
      assert at[k] in at && key(Strip(plan[at[k]].question)) == w;
    }
  }

  lemma ParentsAt(prior: seq<Question>, plan: seq<Planned>, i: nat, at: seq<int>, id: int)
    requires i <= |plan| && CandidatesAt(prior, plan, at) && forall k :: 0 <= k < |at| ==> 0 <= at[k] < i
    ensures id in Primaries(prior) <==> 1 <= id <= i && id - 1 in at && plan[id - 1].kind != FollowUp
  {
    hide Strip;
    if id in Primaries(prior) {
      var k :| 0 <= k < |prior| && prior[k].kind != FollowUp && prior[k].id == id;
      assert at[k] == id - 1;
    }
    if 1 <= id <= i && id - 1 in at && plan[id - 1].kind != FollowUp {
      var k :| 0 <= k < |at| && at[k] == id - 1;
      assert prior[k].id == id && prior[k].kind != FollowUp;
    }
  }

  lemma OneMoreStanding(plan: seq<Planned>, facts: set<int>, key: string -> string, n: nat, before: seq<int>,
                        at: seq<int>)
    requires 0 < n <= |plan| && PositionsStanding(plan, facts, key, n - 1, before)
    requires at == if Stands(plan, facts, key, n - 1, before) then before + [n - 1] else before
    ensures PositionsStanding(plan, facts, key, n, at)
  {
    hide Stands;
    assert forall j :: 0 <= j < n - 1 ==> (j in at <==> j in before);
    assert n - 1 !in before;
    forall i | 0 <= i < n ensures i in at <==> Stands(plan, facts, key, i, at) {
      StandsAlike(plan, facts, key, i, at, before);
    }
  }

  /** Only the positions before it matter. */
  lemma StandsAlike(plan: seq<Planned>, facts: set<int>, key: string -> string, i: nat, at: seq<int>, ta: seq<int>)
    requires i < |plan| && forall j :: 0 <= j < i ==> (j in at <==> j in ta)
    ensures Stands(plan, facts, key, i, at) <==> Stands(plan, facts, key, i, ta)
  {
    hide Strip;
  }

  // ---- Review ----

  /** A candidate that the review accepts, given those accepted before it. */
  predicate Cleared(accepted: seq<Question>, q: Question, a: Audit, facts: set<int>) {
    a.safe && a.basis != [] && NoRepeats(a.basis) && Known(a.basis, facts)
    && (q.kind == FollowUp ==> q.parent.Some? && exists i :: 0 <= i < |accepted| && accepted[i].id == q.parent.value)
  }

  function Accepted(candidates: seq<Question>, audits: seq<Audit>, facts: set<int>, n: nat): seq<Question>
    requires n <= |candidates| && n <= |audits|
  {
    if n == 0 then []
    else
      var prior := Accepted(candidates, audits, facts, n - 1);
      if Cleared(prior, candidates[n - 1], audits[n - 1], facts) then prior + [candidates[n - 1]] else prior
  }

  predicate Covers(audits: seq<Audit>, candidates: seq<Question>) {
    |audits| == |candidates| && forall i :: 0 <= i < |audits| ==> audits[i].questionId == candidates[i].id
  }

  method ReviewedCandidates(audits: seq<Audit>, candidates: seq<Question>, facts: set<int>)
    returns (r: Result<seq<Question>, PlanError>)
    ensures r == if Covers(audits, candidates) then Success(Accepted(candidates, audits, facts, |candidates|))
            else Failure(IncompleteReview)
  {
    if !Covers(audits, candidates) { return Failure(IncompleteReview); }
    var accepted := [];
    for n := 0 to |candidates|
      invariant accepted == Accepted(candidates, audits, facts, n)
    {
      if Cleared(accepted, candidates[n], audits[n], facts) { accepted := accepted + [candidates[n]]; }
    }
    return Success(accepted);
  }

  lemma {:induction false} IdsIncrease(qs: seq<Question>, key: string -> string, i: nat, j: nat)
    requires SaveableUpTo(qs, key, |qs|) && i < j < |qs|
    ensures qs[i].id < qs[j].id
    decreases j
  {
    assert SaveableNext(qs[..j], qs[j], key);
    assert qs[..j][|qs[..j]| - 1] == qs[j - 1];
    if i < j - 1 { IdsIncrease(qs, key, i, j - 1); }
  }

  /** Within a saveable plan an id determines the question. */
  lemma IdTellsQuestion(qs: seq<Question>, key: string -> string, x: Question, y: Question)
    requires SaveableUpTo(qs, key, |qs|) && x in qs && y in qs && x.id == y.id
    ensures x == y
  {
    var i :| 0 <= i < |qs| && qs[i] == x;
    var j :| 0 <= j < |qs| && qs[j] == y;
    if i < j { IdsIncrease(qs, key, i, j); }
    if j < i { IdsIncrease(qs, key, j, i); }
  }

  /** `part` are some of the first `n` candidates. */
  predicate Among(part: seq<Question>, candidates: seq<Question>, n: nat)
    requires n <= |candidates|
  {
    forall i :: 0 <= i < |part| ==> part[i] in candidates[..n]
  }

  lemma AmongLater(part: seq<Question>, candidates: seq<Question>, n: nat)
    requires 0 < n <= |candidates| && Among(part, candidates, n - 1)
    ensures Among(part, candidates, n) && Among(part + [candidates[n - 1]], candidates, n)
  {
    assert candidates[..n] == candidates[..n - 1] + [candidates[n - 1]];
  }

  lemma FewerWordings(part: seq<Question>, qs: seq<Question>, key: string -> string)
    requires forall i :: 0 <= i < |part| ==> part[i] in qs
    ensures Wordings(part, key) <= Wordings(qs, key)
  {
    forall x | x in Wordings(part, key) ensures x in Wordings(qs, key) {
      var i :| 0 <= i < |part| && key(part[i].text) == x;
      var j :| 0 <= j < |qs| && qs[j] == part[i];
    }
  }

  /** A cleared candidate can be saved after those accepted before it: its parent was accepted too. */
  lemma ClearedIsSaveable(candidates: seq<Question>, key: string -> string, prior: seq<Question>, a: Audit,
                          facts: set<int>, n: nat)
    requires 0 < n <= |candidates| && SaveableUpTo(candidates, key, |candidates|) && Among(prior, candidates, n - 1)
    requires Cleared(prior, candidates[n - 1], a, facts)
    ensures SaveableNext(prior, candidates[n - 1], key)
  {
    var q, before := candidates[n - 1], candidates[..n - 1];
    assert SaveableNext(before, q, key);
    FewerWordings(prior, before, key);
    if prior != [] {
      var j :| 0 <= j < n - 1 && candidates[j] == prior[|prior| - 1];
      IdsIncrease(candidates, key, j, n - 1);
    }
    if q.kind == FollowUp {
      var p :| 0 <= p < |before| && before[p].kind != FollowUp && before[p].id == q.parent.value;
      var i :| 0 <= i < |prior| && prior[i].id == q.parent.value;
      assert prior[i] in before && prior[i] in candidates && before[p] in candidates;
      IdTellsQuestion(candidates, key, prior[i], before[p]);
      assert prior[i].id in Primaries(prior);
    }
  }

  /** Whatever the review says, the accepted questions of a saveable plan can be saved. */
  lemma {:induction false} AcceptedIsSaveable(candidates: seq<Question>, audits: seq<Audit>, facts: set<int>,
                                              key: string -> string, n: nat)
    requires n <= |candidates| && n <= |audits| && SaveableUpTo(candidates, key, |candidates|)
    ensures var r := Accepted(candidates, audits, facts, n);
            |r| <= n && SaveableUpTo(r, key, |r|) && Among(r, candidates, n)
  {
    hide SaveableUpTo;
    hide SaveableNext;
    hide Cleared;
    hide Among;
    if n == 0 {
      NothingToSave(key);
      assert Among([], candidates, 0) by { NothingAmong(candidates); }
    } else {
      AcceptedIsSaveable(candidates, audits, facts, key, n - 1);
      var prior := Accepted(candidates, audits, facts, n - 1);
      AmongLater(prior, candidates, n);
      if Cleared(prior, candidates[n - 1], audits[n - 1], facts) {
        ClearedIsSaveable(candidates, key, prior, audits[n - 1], facts, n);
        SaveableSnoc(prior, candidates[n - 1], key);
      }
    }
  }

  lemma NothingAmong(candidates: seq<Question>)
    ensures Among([], candidates, 0)
  {
  }

  /** The review calls the question safe, for some known facts, each named once. */
  ghost predicate FoundSafe(a: Audit, facts: set<int>) {
    && a.safe && |a.basis| >= 1 && (forall i :: 0 <= i < |a.basis| ==> a.basis[i] in facts)
    && forall i, j :: 0 <= i < j < |a.basis| ==> a.basis[i] != a.basis[j]
  }

  /** Candidate `i` is found safe and, if it is a follow-up, the position of its parent is among those before it. */
  ghost predicate Passes(candidates: seq<Question>, audits: seq<Audit>, facts: set<int>, i: nat, at: seq<int>)
    requires i < |candidates| && i < |audits|
  {
    var q := candidates[i];
    FoundSafe(audits[i], facts)
    && (q.kind == FollowUp ==>
          q.parent.Some? && exists j :: 0 <= j < i && j in at && candidates[j].id == q.parent.value)
  }

  /** The positions, in order, of exactly those of the first `n` candidates that pass. */
  ghost predicate PositionsPassing(candidates: seq<Question>, audits: seq<Audit>, facts: set<int>, n: nat, at: seq<int>)
    requires n <= |candidates| && n <= |audits|
  {
    && (forall k :: 0 <= k < |at| ==> 0 <= at[k] < n)
    && (forall j, k :: 0 <= j < k < |at| ==> at[j] < at[k])
    && forall i :: 0 <= i < n ==> (i in at <==> Passes(candidates, audits, facts, i, at))
  }

  ghost predicate TakenAt(part: seq<Question>, candidates: seq<Question>, at: seq<int>) {
    |part| == |at| && forall k :: 0 <= k < |at| ==> 0 <= at[k] < |candidates| && part[k] == candidates[at[k]]
  }

  /** A review accepts exactly the candidates it finds safe, in their order, follow-ups only after their parents. */
  lemma {:induction false} AcceptedAreSafe(candidates: seq<Question>, audits: seq<Audit>, facts: set<int>, n: nat)
    returns (at: seq<int>)
    requires n <= |candidates| && n <= |audits|
    ensures PositionsPassing(candidates, audits, facts, n, at)
    ensures TakenAt(Accepted(candidates, audits, facts, n), candidates, at)
  {
    hide Cleared;
    hide PositionsPassing;
    hide TakenAt;
    at := [];
    if n == 0 {
      NothingPasses(candidates, audits, facts);
    } else {
      var before := AcceptedAreSafe(candidates, audits, facts, n - 1);
      var prior := Accepted(candidates, audits, facts, n - 1);
      ClearedPasses(candidates, audits, facts, prior, n - 1, before);
      hide Passes;
      TakenOneMore(prior, candidates, before, n - 1);
      at := if Cleared(prior, candidates[n - 1], audits[n - 1], facts) then before + [n - 1] else before;
      OneMorePassing(candidates, audits, facts, n, before, at);
    }
  }

  lemma NothingPasses(candidates: seq<Question>, audits: seq<Audit>, facts: set<int>)
    ensures PositionsPassing(candidates, audits, facts, 0, []) && TakenAt([], candidates, [])
  {
  }

  lemma TakenOneMore(part: seq<Question>, candidates: seq<Question>, at: seq<int>, i: nat)
    requires TakenAt(part, candidates, at) && i < |candidates|
    ensures TakenAt(part + [candidates[i]], candidates, at + [i])
  {
  }

  lemma ClearedPasses(candidates: seq<Question>, audits: seq<Audit>, facts: set<int>, prior: seq<Question>, i: nat,
                      at: seq<int>)
    requires i < |candidates| && i < |audits| && TakenAt(prior, candidates, at)
    requires PositionsPassing(candidates, audits, facts, i, at)
    ensures Cleared(prior, candidates[i], audits[i], facts) <==> Passes(candidates, audits, facts, i, at)
  {
    var q, a := candidates[i], audits[i];
    assert FoundSafe(a, facts) <==> a.safe && a.basis != [] && NoRepeats(a.basis) && Known(a.basis, facts);
    assert forall k :: 0 <= k < |at| ==> 0 <= at[k] < i;
    hide PositionsPassing;
    hide FoundSafe;
    hide NoRepeats;
    hide Known;
    if q.kind == FollowUp && q.parent.Some? {
      forall k | 0 <= k < |prior| && prior[k].id == q.parent.value
        ensures exists j :: 0 <= j < i && j in at && candidates[j].id == q.parent.value
      { assert at[k] in at; }
      forall j | 0 <= j < i && j in at && candidates[j].id == q.parent.value
        ensures exists k :: 0 <= k < |prior| && prior[k].id == q.parent.value
      {
        var k :| 0 <= k < |at| && at[k] == j;
        assert prior[k].id == q.parent.value;
      }
    }
  }

  lemma OneMorePassing(candidates: seq<Question>, audits: seq<Audit>, facts: set<int>, n: nat, before: seq<int>,
                       at: seq<int>)
    requires 0 < n <= |candidates| && n <= |audits| && PositionsPassing(candidates, audits, facts, n - 1, before)
    requires at == if Passes(candidates, audits, facts, n - 1, before) then before + [n - 1] else before
    ensures PositionsPassing(candidates, audits, facts, n, at)
  {
    hide FoundSafe;
    assert forall j :: 0 <= j < n - 1 ==> (j in at <==> j in before);
    assert n - 1 !in before;
    forall i | 0 <= i < n
      ensures Passes(candidates, audits, facts, i, at) <==> Passes(candidates, audits, facts, i, before)
    {}
    hide Passes;
  }

  /** From any provider plan and any review, both checkpoints of a plan are accepted by the validator. */
  lemma PipelineCanBeSaved(plan: seq<Planned>, audits: seq<Audit>, facts: set<int>, key: string -> string)
    requires PlanSchemaOk(plan) && Covers(audits, Kept(plan, facts, key, |plan|))
    ensures var candidates := Kept(plan, facts, key, |plan|);
            && Saveable(candidates, key) && Saveable(Accepted(candidates, audits, facts, |candidates|), key)
  {
    KeptIsSaveable(plan, facts, key, |plan|);
    AcceptedIsSaveable(Kept(plan, facts, key, |plan|), audits, facts, key, |Kept(plan, facts, key, |plan|)|);
  }
}
