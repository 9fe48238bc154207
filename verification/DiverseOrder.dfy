/**
 The order of a preparation plan: one question of every kind first, follow-ups behind their parents, then a
 second question per kind; one summary, and never more than two of a kind.
 */
module DiverseOrder {
  import opened PlanPipeline
  import opened Wrappers

  const KINDS := [Character, Relationship, Event, Motive, Summary]

  function OfKind(qs: seq<Question>, kind: Kind): set<Question> {
    set q | q in qs && q.kind == kind
  }

  /** How many of a kind a plan may hold. */
  function Cap(kind: Kind): nat {
    if kind == Summary then 1 else 2
  }

  function Min(a: nat, b: nat): nat {
    if a < b then a else b
  }

  predicate Distinct(qs: seq<Question>) {
    forall i, j :: 0 <= i < j < |qs| ==> qs[i] != qs[j]
  }

  function IdsOf(qs: seq<Question>): set<int> {
    set i | 0 <= i < |qs| :: qs[i].id
  }

  /** Every follow-up stands behind the question it follows. */
  predicate ParentsFirst(qs: seq<Question>) {
    forall i :: 0 <= i < |qs| && qs[i].kind == FollowUp ==> qs[i].parent.Some? && qs[i].parent.value in IdsOf(qs[..i])
  }

  predicate Drawn(ordered: seq<Question>, candidates: seq<Question>) {
    Distinct(ordered) && (forall i :: 0 <= i < |ordered| ==> ordered[i] in candidates) && ParentsFirst(ordered)
  }

  lemma DrawnSnoc(ordered: seq<Question>, candidates: seq<Question>, q: Question)
    requires Drawn(ordered, candidates) && q in candidates && q !in ordered
    requires q.kind == FollowUp ==> q.parent.Some? && q.parent.value in IdsOf(ordered)
    ensures Drawn(ordered + [q], candidates)
  {
    var r := ordered + [q];
    forall i | 0 <= i < |r| && r[i].kind == FollowUp ensures r[i].parent.Some? && r[i].parent.value in IdsOf(r[..i]) {
      assert r[..i] == if i < |ordered| then ordered[..i] else ordered;
    }
  }

  lemma OneMore(ordered: seq<Question>, q: Question)
    requires q !in ordered
    ensures |OfKind(ordered + [q], q.kind)| == |OfKind(ordered, q.kind)| + 1
    ensures forall k :: k != q.kind ==> OfKind(ordered + [q], k) == OfKind(ordered, k)
  {
    assert OfKind(ordered + [q], q.kind) == OfKind(ordered, q.kind) + {q};
    assert forall k :: k != q.kind ==> OfKind(ordered + [q], k) == OfKind(ordered, k);
  }

  lemma PartSize(ordered: seq<Question>, candidates: seq<Question>, kind: Kind)
    requires forall i :: 0 <= i < |ordered| ==> ordered[i] in candidates
    ensures |OfKind(ordered, kind)| <= |OfKind(candidates, kind)|
    ensures (forall q :: q in candidates && q.kind == kind ==> q in ordered)
            ==> OfKind(ordered, kind) == OfKind(candidates, kind)
    ensures (exists q :: q in candidates && q.kind == kind && q !in ordered)
            ==> |OfKind(ordered, kind)| < |OfKind(candidates, kind)|
  {
    var a, b := OfKind(ordered, kind), OfKind(candidates, kind);
    assert a <= b;
    assert b == a + (b - a);
    if exists q :: q in candidates && q.kind == kind && q !in ordered {
      var q :| q in candidates && q.kind == kind && q !in ordered;
      assert q in b - a;
    }
  }

  /** The first candidate of a kind that is not ordered yet. */
  function FirstLeft(candidates: seq<Question>, ordered: seq<Question>, kind: Kind): (r: Option<Question>)
    ensures r.Some? ==> r.value in candidates && r.value.kind == kind && r.value !in ordered
    ensures r.None? ==> forall q :: q in candidates && q.kind == kind ==> q in ordered
  {
    if candidates == [] then None
    else if candidates[0].kind == kind && candidates[0] !in ordered then Some(candidates[0])
    else
      assert candidates == [candidates[0]] + candidates[1..];
      FirstLeft(candidates[1..], ordered, kind)
  }

  /** Every earlier candidate of its kind is in the order too. */
  ghost predicate InTurn(candidates: seq<Question>, ordered: seq<Question>, q: Question) {
    exists i :: 0 <= i < |candidates| && candidates[i] == q
      && forall j :: 0 <= j < i && candidates[j].kind == q.kind ==> candidates[j] in ordered
  }

  lemma {:induction false} FirstLeftIsNext(candidates: seq<Question>, ordered: seq<Question>, kind: Kind)
    ensures var r := FirstLeft(candidates, ordered, kind); r.Some? ==> InTurn(candidates, ordered, r.value)
  {
    var r := FirstLeft(candidates, ordered, kind);
    if r.Some? {
      if candidates[0].kind == kind && candidates[0] !in ordered {
        assert candidates[0] == r.value;
      } else {
        FirstLeftIsNext(candidates[1..], ordered, kind);
        NextAfterOther(candidates, ordered, r.value);
      }
    }
  }

  lemma NextAfterOther(candidates: seq<Question>, ordered: seq<Question>, q: Question)
    requires candidates != [] && (candidates[0].kind != q.kind || candidates[0] in ordered)
    requires InTurn(candidates[1..], ordered, q)
    ensures InTurn(candidates, ordered, q)
  {
    var rest := candidates[1..];
    var i :| 0 <= i < |rest| && rest[i] == q
      && forall j :: 0 <= j < i && rest[j].kind == q.kind ==> rest[j] in ordered;
    assert candidates[i + 1] == q;
    forall j | 0 <= j < i + 1 && candidates[j].kind == q.kind ensures candidates[j] in ordered {
      if j > 0 { assert candidates[j] == rest[j - 1]; }
    }
  }

  /** Of each primary kind the earlier candidates come before the later ones are taken. */
  ghost predicate AllInTurn(candidates: seq<Question>, ordered: seq<Question>) {
    forall q :: q in ordered && q.kind != FollowUp ==> InTurn(candidates, ordered, q)
  }

  lemma StillInTurn(candidates: seq<Question>, before: seq<Question>, ordered: seq<Question>)
    requires AllInTurn(candidates, before) && before <= ordered
    requires forall q :: q in ordered && q !in before && q.kind != FollowUp ==> InTurn(candidates, before, q)
    ensures AllInTurn(candidates, ordered)
  {
    forall q | q in ordered && q.kind != FollowUp ensures InTurn(candidates, ordered, q) {
      assert InTurn(candidates, before, q);
      var i :| 0 <= i < |candidates| && candidates[i] == q
        && forall j :: 0 <= j < i && candidates[j].kind == q.kind ==> candidates[j] in before;
    }
  }

  /** The first question of each of the first `n` kinds. */
  function Firsts(candidates: seq<Question>, n: nat): seq<Question>
    requires n <= |KINDS|
  {
    if n == 0 then []
    else
      var first := FirstLeft(candidates, [], KINDS[n - 1]);
      Firsts(candidates, n - 1) + if first.Some? then [first.value] else []
  }

  lemma {:induction false} FirstOfNew(candidates: seq<Question>, ordered: seq<Question>, kind: Kind)
    requires OfKind(ordered, kind) == {}
    ensures FirstLeft(candidates, ordered, kind) == FirstLeft(candidates, [], kind)
  {
    if candidates != [] {
      assert forall q :: q in ordered && q.kind == kind ==> q in OfKind(ordered, kind);
      FirstOfNew(candidates[1..], ordered, kind);
    }
  }

  method NextOf(candidates: seq<Question>, ordered: seq<Question>, kind: Kind) returns (r: Option<Question>)
    ensures r == FirstLeft(candidates, ordered, kind)
  {
    for n := 0 to |candidates|
      invariant FirstLeft(candidates, ordered, kind) == FirstLeft(candidates[n..], ordered, kind)
    {
      if candidates[n].kind == kind && candidates[n] !in ordered { return Some(candidates[n]); }
      assert candidates[n..][1..] == candidates[n + 1..];
    }
    return None;
  }

  /** After `rounds` rounds a kind has as many questions as there are, up to its share. */
  predicate Filled(ordered: seq<Question>, candidates: seq<Question>, kind: Kind, rounds: nat) {
    |OfKind(ordered, kind)| == Min(Min(rounds, Cap(kind)), |OfKind(candidates, kind)|)
  }

  predicate FilledKinds(ordered: seq<Question>, candidates: seq<Question>, from: nat, to: nat, rounds: nat)
    requires to <= |KINDS|
  {
    forall k :: from <= k < to ==> Filled(ordered, candidates, KINDS[k], rounds)
  }

  /** Taking one more question of a kind, or finding none left, fills that kind's share of the round. */
  lemma KindFilled(ordered: seq<Question>, candidates: seq<Question>, kind: Kind, round: nat, row: Option<Question>)
    requires Drawn(ordered, candidates) && Filled(ordered, candidates, kind, round) && round < Cap(kind)
    requires row == FirstLeft(candidates, ordered, kind)
    ensures row.Some? ==> Filled(ordered + [row.value], candidates, kind, round + 1)
    ensures row.None? ==> Filled(ordered, candidates, kind, round + 1)
  {
    DrawnMembers(ordered, candidates);
    PartSize(ordered, candidates, kind);
    if row.Some? { OneMore(ordered, row.value); }
    hide OfKind;
  }

  lemma RoundStep(ordered: seq<Question>, next: seq<Question>, candidates: seq<Question>, k: nat, round: nat)
    requires k < |KINDS| && FilledKinds(ordered, candidates, 0, k, round + 1)
             && FilledKinds(ordered, candidates, k, |KINDS|, round)
    requires Filled(next, candidates, KINDS[k], round + 1)
    requires forall kind :: kind != KINDS[k] ==> OfKind(next, kind) == OfKind(ordered, kind)
    ensures FilledKinds(next, candidates, 0, k + 1, round + 1) && FilledKinds(next, candidates, k + 1, |KINDS|, round)
  {
    hide OfKind;
    assert forall i :: 0 <= i < |KINDS| && i != k ==> KINDS[i] != KINDS[k];
  }

  /** One question of every primary kind that has one left. */
  method PrimaryRound(candidates: seq<Question>, before: seq<Question>, round: nat) returns (ordered: seq<Question>)
    requires round < 2 && Drawn(before, candidates) && FilledKinds(before, candidates, 0, |KINDS|, round)
    requires (round == 0 ==> before == []) && AllInTurn(candidates, before)
    ensures Drawn(ordered, candidates) && before <= ordered && FilledKinds(ordered, candidates, 0, |KINDS|, round + 1)
    ensures AllInTurn(candidates, ordered)
    ensures OfKind(ordered, FollowUp) == OfKind(before, FollowUp)
    ensures round == 0 ==> ordered == Firsts(candidates, |KINDS|)
  {
    hide FirstLeft;
    hide Drawn;
    hide OfKind;
    hide AllInTurn;
    hide InTurn;
    ordered := before;
    for k := 0 to |KINDS|
      invariant Drawn(ordered, candidates) && before <= ordered && OfKind(ordered, FollowUp) == OfKind(before, FollowUp)
      invariant FilledKinds(ordered, candidates, 0, k, round + 1) && FilledKinds(ordered, candidates, k, |KINDS|, round)
      invariant AllInTurn(candidates, ordered)
      invariant round == 0 ==> ordered == Firsts(candidates, k)
    {
      var kind := KINDS[k];
      if kind == Summary && round > 0 {
        RoundStep(ordered, ordered, candidates, k, round);
        continue;
      }
      var row := NextOf(candidates, ordered, kind);
      KindFilled(ordered, candidates, kind, round, row);
      if round == 0 { NoneYet(ordered, candidates, k); FirstOfNew(candidates, ordered, kind); }
      var next := ordered;
      if row.Some? {
        OneMore(ordered, row.value);
        DrawnSnoc(ordered, candidates, row.value);
        FirstLeftIsNext(candidates, ordered, kind);
        next := ordered + [row.value];
        StillInTurn(candidates, ordered, next);
      }
      RoundStep(ordered, next, candidates, k, round);
      ordered := next;
    }
  }

  lemma NoneYet(ordered: seq<Question>, candidates: seq<Question>, k: nat)
    requires k < |KINDS| && FilledKinds(ordered, candidates, k, |KINDS|, 0)
    ensures OfKind(ordered, KINDS[k]) == {}
  {
    assert Filled(ordered, candidates, KINDS[k], 0);
  }

  lemma FilledStays(before: seq<Question>, after: seq<Question>, candidates: seq<Question>, rounds: nat)
    requires FilledKinds(before, candidates, 0, |KINDS|, rounds)
    requires forall kind :: kind != FollowUp ==> OfKind(after, kind) == OfKind(before, kind)
    ensures FilledKinds(after, candidates, 0, |KINDS|, rounds)
  {
    hide OfKind;
  }

  lemma DrawnMembers(ordered: seq<Question>, candidates: seq<Question>)
    requires Drawn(ordered, candidates)
    ensures forall i :: 0 <= i < |ordered| ==> ordered[i] in candidates
  {
  }

  /** A follow-up that could still be added. */
  predicate Waiting(q: Question, ordered: seq<Question>) {
    q.kind == FollowUp && q !in ordered && q.parent.Some? && q.parent.value in IdsOf(ordered)
  }

  /** Some primary question of the order has this id. */
  predicate HasPrimary(ordered: seq<Question>, id: int) {
    exists i :: 0 <= i < |ordered| && ordered[i].kind != FollowUp && ordered[i].id == id
  }

  /** No follow-up of an ordered primary question is left out while there is room for one. */
  ghost predicate Served(ordered: seq<Question>, candidates: seq<Question>) {
    |OfKind(ordered, FollowUp)| == 2
    || forall q ::
       q in candidates && q.kind == FollowUp && q.parent.Some? && HasPrimary(ordered, q.parent.value) ==> q in ordered
  }

  lemma PrimariesWereThere(before: seq<Question>, ordered: seq<Question>, id: int)
    requires (forall kind :: kind != FollowUp ==> OfKind(ordered, kind) == OfKind(before, kind))
             && HasPrimary(ordered, id)
    ensures id in IdsOf(before)
  {
    var i :| 0 <= i < |ordered| && ordered[i].kind != FollowUp && ordered[i].id == id;
    assert ordered[i] in OfKind(ordered, ordered[i].kind);
    var j :| 0 <= j < |before| && before[j] == ordered[i];
    assert before[j].id == id;
  }

  /** Of the first `n` candidates, no waiting follow-up is left out. */
  predicate NoneWaits(candidates: seq<Question>, n: nat, before: seq<Question>, ordered: seq<Question>)
    requires n <= |candidates|
  {
    forall i :: 0 <= i < n ==> Waiting(candidates[i], before) ==> candidates[i] in ordered
  }

  lemma NoneWaitsIsServed(candidates: seq<Question>, before: seq<Question>, ordered: seq<Question>)
    requires before <= ordered && NoneWaits(candidates, |candidates|, before, ordered)
    requires forall kind :: kind != FollowUp ==> OfKind(ordered, kind) == OfKind(before, kind)
    ensures Served(ordered, candidates)
  {
    forall q | q in candidates && q.kind == FollowUp && q.parent.Some? && HasPrimary(ordered, q.parent.value)
      ensures q in ordered
    {
      PrimariesWereThere(before, ordered, q.parent.value);
      var n :| 0 <= n < |candidates| && candidates[n] == q;
      assert q in before ==> q in ordered;
    }
  }

  /** Follow-ups of what is ordered already, at most two in the whole plan. */
  method FollowUpRound(candidates: seq<Question>, before: seq<Question>) returns (ordered: seq<Question>)
    requires Drawn(before, candidates) && |OfKind(before, FollowUp)| <= 2 && AllInTurn(candidates, before)
    ensures Drawn(ordered, candidates) && before <= ordered && |OfKind(ordered, FollowUp)| <= 2
    ensures AllInTurn(candidates, ordered)
    ensures forall kind :: kind != FollowUp ==> OfKind(ordered, kind) == OfKind(before, kind)
    ensures Served(ordered, candidates)
  {
    hide OfKind;
    hide Drawn;
    hide IdsOf;
    hide Served;
    hide AllInTurn;
    hide InTurn;
    ordered := before;
    for n := 0 to |candidates|
      invariant Drawn(ordered, candidates) && before <= ordered && |OfKind(ordered, FollowUp)| <= 2
      invariant forall kind :: kind != FollowUp ==> OfKind(ordered, kind) == OfKind(before, kind)
      invariant |OfKind(ordered, FollowUp)| == 2 || NoneWaits(candidates, n, before, ordered)
      invariant AllInTurn(candidates, ordered)
    {
      var row := candidates[n];
      MoreIds(before, ordered);
      if |OfKind(ordered, FollowUp)| < 2 && Waiting(row, ordered) {
        OneMore(ordered, row);
        DrawnSnoc(ordered, candidates, row);
        StillInTurn(candidates, ordered, ordered + [row]);
        ordered := ordered + [row];
      }
    }
    if |OfKind(ordered, FollowUp)| != 2 {
      NoneWaitsIsServed(candidates, before, ordered);
    } else {
      TwoIsServed(ordered, candidates);
    }
  }

  lemma TwoIsServed(ordered: seq<Question>, candidates: seq<Question>)
    requires |OfKind(ordered, FollowUp)| == 2
    ensures Served(ordered, candidates)
  {
  }

  lemma MoreIds(before: seq<Question>, ordered: seq<Question>)
    requires before <= ordered
    ensures IdsOf(before) <= IdsOf(ordered)
  {
    forall x | x in IdsOf(before) ensures x in IdsOf(ordered) {
      var i :| 0 <= i < |before| && before[i].id == x;
      assert ordered[i].id == x;
    }
  }

  /**
   The whole order, before it is cut: distinct candidates, each behind its parent; the first question of
   every kind that occurs in front; of every primary kind as many as its share allows, the earlier ones first.
   */
  ghost predicate Diverse(ordered: seq<Question>, candidates: seq<Question>) {
    && Drawn(ordered, candidates) && |OfKind(ordered, FollowUp)| <= 2 && Firsts(candidates, |KINDS|) <= ordered
    && Served(ordered, candidates) && AllInTurn(candidates, ordered)
    && forall k :: 0 <= k < |KINDS| ==>
       |OfKind(ordered, KINDS[k])| == Min(Cap(KINDS[k]), |OfKind(candidates, KINDS[k])|)
  }

  /** `q` stands in front of every other candidate of its kind. */
  ghost predicate FirstOfItsKind(candidates: seq<Question>, q: Question) {
    exists i :: 0 <= i < |candidates| && candidates[i] == q
      && forall j :: 0 <= j < i ==> candidates[j].kind != q.kind
  }

  lemma {:induction false} NothingBefore(candidates: seq<Question>, kind: Kind)
    ensures var r := FirstLeft(candidates, [], kind);
            if r.Some? then r.value.kind == kind && FirstOfItsKind(candidates, r.value)
            else forall j :: 0 <= j < |candidates| ==> candidates[j].kind != kind
  {
    if candidates != [] {
      if candidates[0].kind == kind {
        assert FirstOfItsKind(candidates, candidates[0]);
      } else {
        NothingBefore(candidates[1..], kind);
        hide FirstOfItsKind;
        var r := FirstLeft(candidates, [], kind);
        assert r == FirstLeft(candidates[1..], [], kind);
        if r.Some? { FirstAfterOther(candidates, r.value); }
        assert forall j :: 1 <= j < |candidates| ==> candidates[j] == candidates[1..][j - 1];
      }
    }
  }

  lemma FirstAfterOther(candidates: seq<Question>, q: Question)
    requires candidates != [] && candidates[0].kind != q.kind && FirstOfItsKind(candidates[1..], q)
    ensures FirstOfItsKind(candidates, q)
  {
    var rest := candidates[1..];
    var i :| 0 <= i < |rest| && rest[i] == q && forall j :: 0 <= j < i ==> rest[j].kind != q.kind;
    assert candidates[i + 1] == q;
    forall j | 0 <= j < i + 1 ensures candidates[j].kind != q.kind {
      if j > 0 { assert candidates[j] == rest[j - 1]; }
    }
  }

  /** The place of a primary kind. */
  function Place(kind: Kind): nat {
    match kind
    case Character => 0
    case Relationship => 1
    case Event => 2
    case Motive => 3
    case Summary => 4
    case FollowUp => 5
  }

  /** The first candidate of each of the first `n` kinds that has one, in the order of the kinds. */
  ghost predicate OnePerKind(r: seq<Question>, candidates: seq<Question>, n: nat) {
    && (forall m :: 0 <= m < |r| ==> FirstOfItsKind(candidates, r[m]) && Place(r[m].kind) < n)
    && (forall l, m :: 0 <= l < m < |r| ==> Place(r[l].kind) < Place(r[m].kind))
    && forall q :: q in candidates && Place(q.kind) < n ==> exists m :: 0 <= m < |r| && r[m].kind == q.kind
  }

  lemma {:induction false} FirstsAreFirst(candidates: seq<Question>, n: nat)
    requires n <= |KINDS|
    ensures OnePerKind(Firsts(candidates, n), candidates, n)
  {
    hide FirstOfItsKind;
    hide FirstLeft;
    if n > 0 {
      FirstsAreFirst(candidates, n - 1);
      NothingBefore(candidates, KINDS[n - 1]);
      OneMoreKind(Firsts(candidates, n - 1), candidates, n, FirstLeft(candidates, [], KINDS[n - 1]));
    }
  }

  lemma OneMoreKind(prior: seq<Question>, candidates: seq<Question>, n: nat, first: Option<Question>)
    requires 0 < n <= |KINDS| && OnePerKind(prior, candidates, n - 1)
    requires if first.Some? then first.value.kind == KINDS[n - 1] && FirstOfItsKind(candidates, first.value)
             else forall j :: 0 <= j < |candidates| ==> candidates[j].kind != KINDS[n - 1]
    ensures OnePerKind(prior + if first.Some? then [first.value] else [], candidates, n)
  {
    hide FirstOfItsKind;
    var r := prior + if first.Some? then [first.value] else [];
    assert forall k: Kind :: Place(k) == n - 1 <==> k == KINDS[n - 1];
    forall q | q in candidates && Place(q.kind) < n ensures exists m :: 0 <= m < |r| && r[m].kind == q.kind {
      if q.kind == KINDS[n - 1] {
        assert first.Some? && r[|prior|] == first.value;
      } else {
        var m :| 0 <= m < |prior| && prior[m].kind == q.kind;
        assert r[m] == prior[m];
      }
    }
  }

  /** A plan opens with the first question of each primary kind that occurs, and nothing else before them. */
  lemma OpensWithFirsts(ordered: seq<Question>, candidates: seq<Question>)
    requires Diverse(ordered, candidates)
    ensures exists n :: 0 <= n <= |ordered| && OnePerKind(ordered[..n], candidates, 5)
  {
    FirstsAreFirst(candidates, |KINDS|);
    var firsts := Firsts(candidates, |KINDS|);
    assert ordered[..|firsts|] == firsts;
  }

  method Order(candidates: seq<Question>, limit: nat) returns (cut: seq<Question>)
    ensures exists ordered :: Diverse(ordered, candidates) && cut == if |ordered| <= limit then ordered
            else ordered[..limit]
  {
    var all: seq<Question> := [];
    NothingDrawn(candidates);
    hide OfKind;
    hide Served;
    hide Drawn;
    hide FilledKinds;
    hide Firsts;
    hide InTurn;
    for round := 0 to 2
      invariant Drawn(all, candidates) && FilledKinds(all, candidates, 0, |KINDS|, round)
                && |OfKind(all, FollowUp)| <= 2 && AllInTurn(candidates, all)
      invariant if round == 0 then all == [] else Firsts(candidates, |KINDS|) <= all && Served(all, candidates)
    {
      var primaries := PrimaryRound(candidates, all, round);
      all := FollowUpRound(candidates, primaries);
      FilledStays(primaries, all, candidates, round + 1);
    }
    SharesFilled(all, candidates);
    assert Diverse(all, candidates);
    cut := if |all| <= limit then all else all[..limit];
  }

  lemma SharesFilled(all: seq<Question>, candidates: seq<Question>)
    requires FilledKinds(all, candidates, 0, |KINDS|, 2)
    ensures forall k :: 0 <= k < |KINDS| ==>
            |OfKind(all, KINDS[k])| == Min(Cap(KINDS[k]), |OfKind(candidates, KINDS[k])|)
  {
    hide OfKind;
    assert forall k :: 0 <= k < |KINDS| ==> Filled(all, candidates, KINDS[k], 2);
  }

  lemma NothingDrawn(candidates: seq<Question>)
    ensures Drawn([], candidates) && FilledKinds([], candidates, 0, |KINDS|, 0) && |OfKind([], FollowUp)| == 0
  {
    assert forall kind :: OfKind([], kind) == {};
  }

  /** However short the plan is cut, each follow-up in it comes after its own parent, also in it. */
  lemma CutKeepsParents(ordered: seq<Question>, candidates: seq<Question>, n: nat)
    requires Drawn(ordered, candidates) && n <= |ordered|
    ensures Drawn(ordered[..n], candidates)
  {
    forall i | 0 <= i < n && ordered[i].kind == FollowUp
      ensures ordered[..n][i].parent.value in IdsOf(ordered[..n][..i])
    {
      assert ordered[..n][..i] == ordered[..i];
    }
  }

  /** Every primary kind that the candidates have is in the uncut order. */
  lemma EveryKindIsCovered(ordered: seq<Question>, candidates: seq<Question>, q: Question)
    requires Diverse(ordered, candidates) && q in candidates && q.kind != FollowUp
    ensures exists r :: r in ordered && r.kind == q.kind
  {
    var k := match q.kind case Character => 0 case Relationship => 1 case Event => 2 case Motive => 3 case _ => 4;
    assert KINDS[k] == q.kind;
    assert q in OfKind(candidates, q.kind);
    assert |OfKind(ordered, q.kind)| >= 1;
    assert OfKind(ordered, q.kind) != {};
    var r :| r in OfKind(ordered, q.kind);
  }
}
