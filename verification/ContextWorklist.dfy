/**
 The two-index worklist of context completion, and the optional retrieval by name. The worklist never looks
 at a source twice; it is proved to append exactly what the simple form appends.
 */
module ContextWorklist {
  import opened Wrappers
  import opened AskContext
  import AskRetrieval

  // ---- What a closed stretch means ----

  lemma ClosedGrows(p: seq<Source>, s: Source, pool: seq<Source>, all: bool, n: nat)
    requires n <= |p| && ClosedBefore(p, pool, all, n)
    ensures ClosedBefore(p + [s], pool, all, n)
  {
    AppendSets(p, s);
    forall i | 0 <= i < n ensures ClosedSource(p + [s], pool, all, (p + [s])[i]) {
      assert ClosedSource(p, pool, all, p[i]);
    }
  }

  lemma RefClosedStays(p: seq<Source>, r: seq<Source>, pool: seq<Source>, id: int)
    requires p <= r && !OpenRef(p, pool, id)
    ensures !OpenRef(r, pool, id)
  {
    if Lookup(pool, id).Some? {
      var t := Lookup(pool, id).value;
      if t.id in Ids(p) { var i :| 0 <= i < |p| && p[i].id == t.id; assert r[i].id == t.id; }
      if t.evidence in Evidences(p) {
        var i :| 0 <= i < |p| && p[i].evidence == t.evidence;
        assert r[i].evidence == t.evidence;
      }
    }
  }

  lemma FullIsClosed(p: seq<Source>, pool: seq<Source>, all: bool)
    requires |p| >= MAX_SELECTED
    ensures ClosedBefore(p, pool, all, |p|)
  {
    assert forall s :: !Open(p, s);
  }

  lemma {:induction false} ScanSkipsClosed(p: seq<Source>, pool: seq<Source>, all: bool, i: nat, n: nat)
    requires i <= n <= |p| && ClosedBefore(p, pool, all, n)
    ensures FirstOpen(p, pool, all, i) == FirstOpen(p, pool, all, n)
    decreases n - i
  {
    if i < n {
      assert FirstRef(p, pool, Refs(p[i], all)).None? by { assert ClosedSource(p, pool, all, p[i]); }
      hide FirstRef;
      hide ClosedSource;
      ScanSkipsClosed(p, pool, all, i + 1, n);
    }
  }

  lemma {:induction false} RefsSkipClosed(p: seq<Source>, pool: seq<Source>, refs: seq<int>, k: nat)
    requires k < |refs| && (forall j :: 0 <= j < k ==> !OpenRef(p, pool, refs[j])) && OpenRef(p, pool, refs[k])
    ensures FirstRef(p, pool, refs) == Lookup(pool, refs[k])
  {
    if k > 0 {
      assert forall j :: 0 <= j < k - 1 ==> refs[1..][j] == refs[j + 1];
      RefsSkipClosed(p, pool, refs[1..], k - 1);
    }
  }

  /** The reference at hand is the first open one, so its target is what the simple form wants next. */
  lemma WantedByRef(p: seq<Source>, pool: seq<Source>, needed: set<Term>, all: bool, i: nat, k: nat)
    requires i < |p| && k < |Refs(p[i], all)| && ClosedBefore(p, pool, all, i)
    requires (forall j :: 0 <= j < k ==> !OpenRef(p, pool, Refs(p[i], all)[j])) && OpenRef(p, pool, Refs(p[i], all)[k])
    requires all ==> ClosedBefore(p, pool, false, |p|)
    ensures Next(p, pool, needed) == Lookup(pool, Refs(p[i], all)[k])
  {
    ScanSkipsClosed(p, pool, all, 0, i);
    RefsSkipClosed(p, pool, Refs(p[i], all), k);
    if all { assert FirstOpen(p, pool, false, 0).None?; }
  }

  /** Once the target is appended, if it was open, the reference is closed like those before it. */
  lemma RefFollowed(p: seq<Source>, pool: seq<Source>, all: bool, i: nat, k: nat)
    requires i < |p| && k < |Refs(p[i], all)| && ClosedBefore(p, pool, all, i) && Lookup(pool, Refs(p[i], all)[k]).Some?
    requires forall j :: 0 <= j < k ==> !OpenRef(p, pool, Refs(p[i], all)[j])
    ensures var t := Lookup(pool, Refs(p[i], all)[k]).value;
            var r := if Open(p, t) then p + [t] else p;
            ClosedBefore(r, pool, all, i) && forall j :: 0 <= j <= k ==> !OpenRef(r, pool, Refs(p[i], all)[j])
  {
    var t := Lookup(pool, Refs(p[i], all)[k]).value;
    if Open(p, t) {
      AppendSets(p, t);
      ClosedGrows(p, t, pool, all, i);
      forall j | 0 <= j < k ensures !OpenRef(p + [t], pool, Refs(p[i], all)[j]) {
        RefClosedStays(p, p + [t], pool, Refs(p[i], all)[j]);
      }
    }
  }

  /** An open target of the reference at hand is what the simple form appends next. */
  lemma WantedIsNext(p: seq<Source>, pool: seq<Source>, needed: set<Term>, all: bool, i: nat, k: nat)
    requires i < |p| && k < |Refs(p[i], all)| && ClosedBefore(p, pool, all, i) && OpenRef(p, pool, Refs(p[i], all)[k])
    requires forall j :: 0 <= j < k ==> !OpenRef(p, pool, Refs(p[i], all)[j])
    requires all ==> ClosedBefore(p, pool, false, |p|)
    ensures Completed(p + [Lookup(pool, Refs(p[i], all)[k]).value], pool, needed) == Completed(p, pool, needed)
  {
    WantedByRef(p, pool, needed, all, i, k);
  }

  predicate Drawn(p: seq<Source>, pool: seq<Source>) {
    forall i :: 0 <= i < |p| ==> p[i] in pool
  }

  class Completion {
    const pool: seq<Source>
    var result: seq<Source>
    var seen: set<int>
    var evidence: set<Evidence>
    var index: nat
    var continuityIndex: nat

    ghost predicate Valid()
      reads this
    {
      && ValidPool(pool) && Drawn(result, pool)
      && seen == Ids(result) && evidence == Evidences(result)
      && index <= |result| && continuityIndex <= |result|
      && ClosedBefore(result, pool, false, continuityIndex) && ClosedBefore(result, pool, true, index)
    }

    constructor (pool: seq<Source>, initial: seq<Source>)
      requires ValidPool(pool) && Drawn(initial, pool)
      ensures Valid() && this.pool == pool && result == initial
    {
      this.pool, result := pool, initial;
      seen, evidence := Ids(initial), Evidences(initial);
      index, continuityIndex := 0, 0;
    }

    method Append(s: Source)
      requires Valid() && s in pool
      modifies this`result, this`seen, this`evidence
      ensures Valid() && result == if Open(old(result), s) then old(result) + [s] else old(result)
    {
      if s.id in seen || s.evidence in evidence || |result| >= MAX_SELECTED { return; }
      AppendSets(result, s);
      ClosedGrows(result, s, pool, false, continuityIndex);
      ClosedGrows(result, s, pool, true, index);
      result := result + [s];
      seen, evidence := seen + {s.id}, evidence + {s.evidence};
    }

    /** Follows the `k`th reference of the `i`th source, all earlier ones being closed. */
    method Follow(id: int, ghost needed: set<Term>, ghost all: bool, ghost i: nat, ghost k: nat)
      requires Valid() && Lookup(pool, id).Some?
      requires i < |result| && k < |Refs(result[i], all)| && Refs(result[i], all)[k] == id
               && ClosedBefore(result, pool, all, i)
      requires forall j :: 0 <= j < k ==> !OpenRef(result, pool, Refs(result[i], all)[j])
      requires all ==> ClosedBefore(result, pool, false, |result|)
      modifies this`result, this`seen, this`evidence
      ensures Valid() && old(result) <= result
      ensures ClosedBefore(result, pool, all, i)
              && forall j :: 0 <= j <= k ==> !OpenRef(result, pool, Refs(result[i], all)[j])
      ensures Completed(result, pool, needed) == Completed(old(result), pool, needed)
    {
      if Open(result, Lookup(pool, id).value) { WantedIsNext(result, pool, needed, all, i, k); }
      RefFollowed(result, pool, all, i, k);
      hide Completed;
      Append(Lookup(pool, id).value);
    }

    method CloseContinuity(ghost needed: set<Term>)
      requires Valid()
      modifies this`result, this`seen, this`evidence, this`continuityIndex
      ensures Valid() && old(result) <= result && ClosedBefore(result, pool, false, |result|)
      ensures Completed(result, pool, needed) == Completed(old(result), pool, needed)
    {
      hide Completed;
      hide ClosedSource;
      while continuityIndex < |result| < MAX_SELECTED
        invariant Valid() && old(result) <= result
        invariant Completed(result, pool, needed) == Completed(old(result), pool, needed)
        decreases MAX_SELECTED - continuityIndex
      {
        FollowContinuity(result[continuityIndex], needed);
        continuityIndex := continuityIndex + 1;
      }
      if |result| >= MAX_SELECTED { FullIsClosed(result, pool, false); }
    }

    /** Follows the continuity reference, if any, of the source at `continuityIndex`. */
    method FollowContinuity(source: Source, ghost needed: set<Term>)
      requires Valid() && continuityIndex < |result| && result[continuityIndex] == source
      modifies this`result, this`seen, this`evidence
      ensures Valid() && old(result) <= result && ClosedSource(result, pool, false, source)
      ensures Completed(result, pool, needed) == Completed(old(result), pool, needed)
    {
      hide Completed;
      var k := 0;
      while k < |source.continuityIds|
        invariant 0 <= k <= |source.continuityIds| && Valid() && old(result) <= result
        invariant forall j :: 0 <= j < k ==> !OpenRef(result, pool, source.continuityIds[j])
        invariant Completed(result, pool, needed) == Completed(old(result), pool, needed)
      {
        assert ValidRefs(source, pool) && JustBefore(source, Lookup(pool, source.continuityIds[k]));
        Follow(source.continuityIds[k], needed, false, continuityIndex, k);
        k := k + 1;
      }
    }

    method CloseContext(ghost needed: set<Term>)
      requires Valid()
      modifies this`result, this`seen, this`evidence, this`continuityIndex, this`index
      ensures Valid() && old(result) <= result
      ensures ClosedBefore(result, pool, false, |result|) && ClosedBefore(result, pool, true, |result|)
      ensures Completed(result, pool, needed) == Completed(old(result), pool, needed)
    {
      hide Completed;
      hide ClosedSource;
      CloseContinuity(needed);
      while index < |result| < MAX_SELECTED
        invariant Valid() && old(result) <= result && ClosedBefore(result, pool, false, |result|)
        invariant Completed(result, pool, needed) == Completed(old(result), pool, needed)
        decreases MAX_SELECTED - index
      {
        FollowAll(result[index], needed);
        index := index + 1;
      }
      if |result| >= MAX_SELECTED { FullIsClosed(result, pool, true); }
    }

    /** Follows every reference of the source at `index`, closing continuity after each. */
    method FollowAll(source: Source, ghost needed: set<Term>)
      requires Valid() && index < |result| && result[index] == source && ClosedBefore(result, pool, false, |result|)
      modifies this`result, this`seen, this`evidence, this`continuityIndex
      ensures Valid() && old(result) <= result && ClosedBefore(result, pool, false, |result|)
      ensures ClosedSource(result, pool, true, source)
      ensures Completed(result, pool, needed) == Completed(old(result), pool, needed)
    {
      var refs := source.contextIds + source.continuityIds;
      var k := 0;
      while k < |refs|
        invariant 0 <= k <= |refs| && Valid() && old(result) <= result && ClosedBefore(result, pool, false, |result|)
        invariant forall j :: 0 <= j < k ==> !OpenRef(result, pool, refs[j])
        invariant Completed(result, pool, needed) == Completed(old(result), pool, needed)
      {
        RefExists(pool, source, k);
        Follow(refs[k], needed, true, index, k);
        ghost var was := result;
        CloseContinuity(needed);
        forall j | 0 <= j <= k ensures !OpenRef(result, pool, refs[j]) { RefClosedStays(was, result, pool, refs[j]); }
        k := k + 1;
      }
    }

    /** Covers missing names greedily, following the references of each source it adds. */
    method CoverNames(needed: set<Term>)
      requires Valid() && ClosedBefore(result, pool, false, |result|) && ClosedBefore(result, pool, true, |result|)
      modifies this
      ensures Valid() && result == Completed(old(result), pool, needed)
    {
      var missing := needed - Present(result);
      while missing != {} && |result| < MAX_SELECTED
        invariant Valid() && missing == needed - Present(result)
        invariant ClosedBefore(result, pool, false, |result|) && ClosedBefore(result, pool, true, |result|)
        invariant Completed(result, pool, needed) == Completed(old(result), pool, needed)
        decreases MAX_SELECTED - |result|
      {
        var best := Best(pool, seen, evidence, missing, Chapters(result));
        NameIsWanted(result, pool, needed);
        if best.None? { return; }
        Append(best.value);
        CloseContext(needed);
        missing := needed - Present(result);
      }
      NothingWanted(result, pool, needed);
    }
  }

  /** With every reference closed, only a name can still be wanted. */
  lemma NameIsWanted(p: seq<Source>, pool: seq<Source>, needed: set<Term>)
    requires ClosedBefore(p, pool, false, |p|) && ClosedBefore(p, pool, true, |p|) && |p| < MAX_SELECTED
    ensures Next(p, pool, needed) == BestName(p, pool, needed)
  {
  }

  lemma NothingWanted(p: seq<Source>, pool: seq<Source>, needed: set<Term>)
    requires ClosedBefore(p, pool, false, |p|) && ClosedBefore(p, pool, true, |p|)
    requires needed - Present(p) == {} || |p| >= MAX_SELECTED
    ensures Completed(p, pool, needed) == p
  {
    BestIsFirstBest(pool, Ids(p), Evidences(p), needed - Present(p), Chapters(p), |pool|);
  }

  /** The first candidate that ranks best among the offers. */
  method Best(pool: seq<Source>, seen: set<int>, used: set<Evidence>, missing: set<Term>, near: set<string>)
    returns (best: Option<Source>)
    ensures var k := BestOf(pool, seen, used, missing, near, |pool|);
            best == if k.None? then None else Some(pool[k.value])
  {
    best := None;
    for i := 0 to |pool|
      invariant var k := BestOf(pool, seen, used, missing, near, i);
                best == if k.None? then None else Some(pool[k.value])
    {
      if Offers(pool[i], seen, used, missing)
         && (best.None? || Better(RankOf(pool[i], missing, near), RankOf(best.value, missing, near)))
      {
        best := Some(pool[i]);
      }
    }
  }

  // ---- Retrieval by name ----

  /** The words of a question: its proper words and the words of the known names. */
  datatype Query = Query(proper: set<Term>, visible: set<Term>)

  datatype Lexicon = Lexicon(questionWords: set<Term>, roles: set<Term>)

  function NeededNames(q: Query, lexicon: Lexicon, observed: set<Term>): set<Term> {
    (if q.visible != {} then q.proper * q.visible else q.proper - lexicon.questionWords) * observed
  }

  function RequiredNames(q: Query, lexicon: Lexicon): set<Term> {
    ((q.proper - lexicon.questionWords) + (q.proper * q.visible * {"may", "will"})) - lexicon.roles - {"grand"}
  }

  const MAX_FALLBACK := 3

  function Pick(p: seq<Source>, pool: seq<Source>, needed: set<Term>): (r: Option<Source>)
    ensures r.Some? ==>
            r.value in pool && r.value.evidence !in Evidences(p) && (needed - Present(p)) * r.value.terms != {}
  {
    var k := BestOf(pool, {}, Evidences(p), needed - Present(p), {}, |pool|);
    if k.None? then None else Some(pool[k.value])
  }

  /** Greedy cover by at most three sources, or nothing. */
  function Cover(p: seq<Source>, pool: seq<Source>, needed: set<Term>): seq<Source>
    decreases MAX_FALLBACK - |p|
  {
    if needed <= Present(p) then p
    else if |p| >= MAX_FALLBACK || Pick(p, pool, needed).None? then []
    else Cover(p + [Pick(p, pool, needed).value], pool, needed)
  }

  /** A cover that is found covers every needed name with at most three sources of distinct evidence. */
  lemma {:induction false} CoverCovers(p: seq<Source>, pool: seq<Source>, needed: set<Term>)
    requires DistinctIds(pool) && Drawn(p, pool) && NewEvidence(p, 0) && |p| <= MAX_FALLBACK
    ensures var r := Cover(p, pool, needed);
            r != [] ==>
              p <= r && |r| <= MAX_FALLBACK && ValidSelection(r, pool) && NewEvidence(r, 0) && needed <= Present(r)
    decreases MAX_FALLBACK - |p|
  {
    if needed <= Present(p) {
      EvidenceTellsIds(p, pool);
    } else if |p| < MAX_FALLBACK && Pick(p, pool, needed).Some? {
      var s := Pick(p, pool, needed).value;
      assert forall i :: 0 <= i < |p| ==> p[i].evidence in Evidences(p);
      CoverCovers(p + [s], pool, needed);
    }
  }

  lemma EvidenceTellsIds(p: seq<Source>, pool: seq<Source>)
    requires DistinctIds(pool) && Drawn(p, pool) && NewEvidence(p, 0)
    ensures DistinctIds(p)
  {
    forall i, j | 0 <= i < j < |p| ensures p[i].id != p[j].id {
      assert p[i] in pool && p[j] in pool;
    }
  }

  /** Nothing is retrieved unless at least two names are asked for and every one of them occurs. */
  function Fallback(q: Query, lexicon: Lexicon, pool: seq<Source>): seq<Source> {
    var needed := RequiredNames(q, lexicon);
    if |needed * Present(pool)| < 2 || !(needed <= Present(pool)) then [] else Cover([], pool, needed)
  }

  method NamedFallback(q: Query, lexicon: Lexicon, pool: seq<Source>) returns (result: seq<Source>)
    ensures result == Fallback(q, lexicon, pool)
  {
    var needed := RequiredNames(q, lexicon);
    if |needed * Present(pool)| < 2 || !(needed <= Present(pool)) { return []; }
    result := [];
    var used, missing := {}, needed;
    while missing != {} && |result| < MAX_FALLBACK
      invariant used == Evidences(result) && missing == needed - Present(result) && |result| <= MAX_FALLBACK
      invariant Cover(result, pool, needed) == Cover([], pool, needed)
      decreases MAX_FALLBACK - |result|
    {
      var best := Best(pool, {}, used, missing, {});
      assert !(needed <= Present(result));
      if best.None? { return []; }
      AppendSets(result, best.value);
      result := result + [best.value];
      used, missing := used + {best.value.evidence}, missing - best.value.terms;
    }
    assert missing == {} <==> needed <= Present(result);
    if missing != {} { return []; }
  }

  // ---- The whole call ----

  datatype ContextError = InvalidContext

  /** Retrieval by name, and what its references bring in; the names are covered already. */
  function Found(q: Query, lexicon: Lexicon, pool: seq<Source>): seq<Source> {
    var f := Fallback(q, lexicon, pool);
    if f == [] then [] else Completed(f, pool, {})
  }

  /**
   `query` is `None` for a malformed question or roster of names; `words` finds the words of a name text. What
   is returned are candidates as they were handed over.
   */
  method CompleteAskContext(words: string -> set<Term>, query: Option<Query>, selected: seq<Excerpt>,
                            candidates: seq<Excerpt>, lexicon: Lexicon, allowFallback: bool)
    returns (r: Result<seq<Excerpt>, ContextError>)
    ensures var chosen, pool := AllNamed(words, selected), AllNamed(words, candidates);
            r.Failure? <==> |selected| > MAX_SELECTED
                            || (!(selected == [] && !allowFallback)
                                && (!(ValidPool(pool) && ValidSelection(chosen, pool))
                                    || (candidates != [] && query.None?)))
    ensures r.Success? && selected == [] && !allowFallback ==> r.value == []
    ensures r.Success? && selected != [] ==>
              var chosen, pool := AllNamed(words, selected), AllNamed(words, candidates);
              && query.Some?
              && r.value == Excerpts(Completed(chosen, pool, NeededNames(query.value, lexicon, Present(pool))))
    ensures r.Success? && selected == [] && allowFallback && candidates == [] ==> r.value == []
    ensures r.Success? && selected == [] && allowFallback && candidates != [] ==>
              query.Some? && r.value == Excerpts(Found(query.value, lexicon, AllNamed(words, candidates)))
  {
    if |selected| > MAX_SELECTED { return Failure(InvalidContext); }
    if selected == [] && !allowFallback { return Success([]); }
    var chosen, pool := AllNamed(words, selected), AllNamed(words, candidates);
    if !(ValidPool(pool) && ValidSelection(chosen, pool)) { return Failure(InvalidContext); }
    assert selected != [] ==> chosen[0] in pool;
    if candidates == [] { return Success([]); }
    if query.None? { return Failure(InvalidContext); }
    var initial, needed := chosen, {};
    if selected == [] {
      initial := NamedFallback(query.value, lexicon, pool);
      if initial == [] { return Success([]); }
      CoverCovers([], pool, RequiredNames(query.value, lexicon));
    } else {
      needed := NeededNames(query.value, lexicon, Present(pool));
    }
    var completion := new Completion(pool, initial);
    completion.CloseContext(needed);
    completion.CoverNames(needed);
    return Success(Excerpts(completion.result));
  }

  /**
   What a reader gets: the selection first, at most six candidates of distinct ids, nothing added that shows
   the same evidence twice; and with room to spare, every reference followed and every solid name covered.
   */
  lemma ContextIsComplete(q: Query, lexicon: Lexicon, selected: seq<Source>, pool: seq<Source>)
    requires ValidPool(pool) && ValidSelection(selected, pool)
    ensures var needed := NeededNames(q, lexicon, Present(pool));
            var r := Completed(selected, pool, needed);
            && selected <= r && ValidSelection(r, pool) && NewEvidence(r, |selected|)
            && (|r| < MAX_SELECTED ==>
                  ClosedUnderRefs(r, pool) && forall t :: t in needed && Solid(pool, t) ==> t in Present(r))
  {
    var needed := NeededNames(q, lexicon, Present(pool));
    assert NewEvidence(selected, |selected|);
    CompletedExtends(selected, pool, needed, |selected|);
    if |Completed(selected, pool, needed)| < MAX_SELECTED {
      SpareRoomIsClosed(selected, pool, needed);
      SpareRoomCoversNames(selected, pool, needed);
    }
  }

  /** Where equal evidence always has equal names, every needed name is solid. */
  lemma EqualNamesAreSolid(q: Query, lexicon: Lexicon, pool: seq<Source>)
    requires forall c, d :: c in pool && d in pool && c.evidence == d.evidence ==> c.terms == d.terms
    ensures forall t :: t in NeededNames(q, lexicon, Present(pool)) ==> Solid(pool, t)
  {
    forall t | t in NeededNames(q, lexicon, Present(pool)) ensures Solid(pool, t) {
      var i :| 0 <= i < |pool| && t in pool[i].terms;
      assert pool[i] in pool && OnlyBearers(pool, pool[i], t);
    }
  }

  /** The candidates show, one for one, the excerpts that question retrieval kept. */
  predicate Shows(es: seq<Excerpt>, items: seq<AskRetrieval.Item>) {
    && |es| == |items|
    && forall i :: 0 <= i < |es| ==> es[i].evidence == Evidence(items[i].chapter, items[i].ordinal, items[i].text)
  }

  /**
   Retrieval keeps no two excerpts with the same words of a chapter, so its candidates have no title twins:
   whatever is selected of them, a completion with room to spare covers every needed name.
   */
  lemma RetrievedNamesAreCovered(words: string -> set<Term>, q: Query, lexicon: Lexicon, items: seq<AskRetrieval.Item>,
                                 candidates: seq<Excerpt>, selected: seq<Source>)
    requires AskRetrieval.Irredundant(items) && Shows(candidates, items)
    requires ValidPool(AllNamed(words, candidates)) && ValidSelection(selected, AllNamed(words, candidates))
    ensures var pool := AllNamed(words, candidates);
            var needed := NeededNames(q, lexicon, Present(pool));
            var r := Completed(selected, pool, needed);
            |r| < MAX_SELECTED ==> needed <= Present(r)
  {
    var pool := AllNamed(words, candidates);
    forall i, j | 0 <= i < j < |pool| ensures pool[i].evidence != pool[j].evidence {
      assert !AskRetrieval.Covers(items[i], items[j]);
    }
    EqualNamesAreSolid(q, lexicon, pool);
    ContextIsComplete(q, lexicon, selected, pool);
  }

  /** Retrieval by name keeps every required name through the completion that follows it. */
  lemma FallbackKeepsNames(q: Query, lexicon: Lexicon, pool: seq<Source>)
    requires ValidPool(pool) && Fallback(q, lexicon, pool) != []
    ensures var f := Fallback(q, lexicon, pool);
            var r := Completed(f, pool, {});
            && 1 <= |f| <= MAX_FALLBACK && f <= r && ValidSelection(r, pool) && NewEvidence(r, 0)
            && RequiredNames(q, lexicon) <= Present(r)
  {
    var f := Fallback(q, lexicon, pool);
    CoverCovers([], pool, RequiredNames(q, lexicon));
    CompletedExtends(f, pool, {}, 0);
    PresentGrows(f, Completed(f, pool, {}));
  }
}
