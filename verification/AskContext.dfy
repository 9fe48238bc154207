/**
 The simple form of context completion: keep appending the one source that is wanted next. A continuity
 reference comes before a context reference, and that before the best source for a missing name.
 */
module AskContext {
  import opened Wrappers
  import opened Text
  import Passages

  type Term = string

  /** Two candidates with equal evidence show the reader the same words. */
  datatype Evidence = Evidence(chapter: string, ordinal: int, text: string)

  /** A candidate as it is handed over; `offset` is where its text starts in the chapter, if it says so. */
  datatype Excerpt = Excerpt(id: int, evidence: Evidence, contextIds: seq<int>, continuityIds: seq<int>,
                             title: string, offset: Option<int>)

  /** `lstrip()`. */
  function SkipSpace(s: string): string {
    if s != "" && IsSpace(s[0]) then SkipSpace(s[1..]) else s
  }

  /** The text in which names are looked for: an opening of a chapter loses the chapter's title. */
  function NameText(e: Excerpt): string {
    var title, text := Passages.NormalizeSource(e.title), e.evidence.text;
    if e.offset == Some(0) && title != "" && title <= text && (|text| == |title| || IsSpace(text[|title|]))
    then SkipSpace(text[|title|..])
    else text
  }

  /** A candidate with the words of its name text. */
  datatype Source = Source(excerpt: Excerpt, terms: set<Term>) {
    const id := excerpt.id
    const evidence := excerpt.evidence
    const contextIds := excerpt.contextIds
    const continuityIds := excerpt.continuityIds
  }

  function Named(words: string -> set<Term>, e: Excerpt): Source {
    Source(e, words(NameText(e)))
  }

  function AllNamed(words: string -> set<Term>, es: seq<Excerpt>): seq<Source> {
    seq(|es|, i requires 0 <= i < |es| => Named(words, es[i]))
  }

  function Excerpts(p: seq<Source>): seq<Excerpt> {
    seq(|p|, i requires 0 <= i < |p| => p[i].excerpt)
  }

  const MAX_SELECTED := 6
  const MAX_CANDIDATES := 24
  const PASSAGE_CHARS := 1500

  function Ids(p: seq<Source>): set<int> {
    set i | 0 <= i < |p| :: p[i].id
  }

  function Evidences(p: seq<Source>): set<Evidence> {
    set i | 0 <= i < |p| :: p[i].evidence
  }

  function Present(p: seq<Source>): set<Term> {
    set i, t | 0 <= i < |p| && t in p[i].terms :: t
  }

  function Chapters(p: seq<Source>): set<string> {
    set i | 0 <= i < |p| :: p[i].evidence.chapter
  }

  function Lookup(pool: seq<Source>, id: int): (r: Option<Source>)
    ensures r.Some? ==> r.value in pool && r.value.id == id
    ensures r.None? ==> forall i :: 0 <= i < |pool| ==> pool[i].id != id
  {
    if pool == [] then None else if pool[0].id == id then Some(pool[0]) else Lookup(pool[1..], id)
  }

  // ---- Validation ----

  predicate ValidSource(s: Source) {
    1 <= s.id <= MAX_CANDIDATES && s.evidence.ordinal >= 1 && !Blank(s.evidence.text)
      && |s.evidence.text| <= PASSAGE_CHARS
  }

  predicate DistinctIds(p: seq<Source>) {
    forall i, j :: 0 <= i < j < |p| ==> p[i].id != p[j].id
  }

  predicate NearBy(s: Source, target: Option<Source>) {
    target.Some? && target.value.evidence.chapter == s.evidence.chapter
      && target.value.evidence.ordinal == s.evidence.ordinal
  }

  predicate JustBefore(s: Source, target: Option<Source>) {
    target.Some? && target.value.evidence.chapter != s.evidence.chapter
      && target.value.evidence.ordinal == s.evidence.ordinal - 1
  }

  predicate ValidRefs(s: Source, pool: seq<Source>) {
    && s.evidence.chapter != "" && |s.contextIds| <= MAX_CANDIDATES && |s.continuityIds| <= 1
    && (forall k :: 0 <= k < |s.contextIds| ==> NearBy(s, Lookup(pool, s.contextIds[k])))
    && (forall k :: 0 <= k < |s.continuityIds| ==> JustBefore(s, Lookup(pool, s.continuityIds[k])))
  }

  predicate ValidPool(pool: seq<Source>) {
    && |pool| <= MAX_CANDIDATES && DistinctIds(pool) && (forall i :: 0 <= i < |pool| ==> ValidSource(pool[i]))
    && (forall i :: 0 <= i < |pool| ==> ValidRefs(pool[i], pool))
  }

  /** The selection repeats candidates unchanged, each once. */
  predicate ValidSelection(p: seq<Source>, pool: seq<Source>) {
    |p| <= MAX_SELECTED && DistinctIds(p) && forall i :: 0 <= i < |p| ==> p[i] in pool
  }

  // ---- The source wanted next ----

  predicate Open(p: seq<Source>, s: Source) {
    s.id !in Ids(p) && s.evidence !in Evidences(p) && |p| < MAX_SELECTED
  }

  function Refs(s: Source, all: bool): seq<int> {
    if all then s.contextIds + s.continuityIds else s.continuityIds
  }

  predicate OpenRef(p: seq<Source>, pool: seq<Source>, id: int) {
    Lookup(pool, id).Some? && Open(p, Lookup(pool, id).value)
  }

  function FirstRef(p: seq<Source>, pool: seq<Source>, refs: seq<int>): (r: Option<Source>)
    ensures r.None? <==> forall k :: 0 <= k < |refs| ==> !OpenRef(p, pool, refs[k])
    ensures r.Some? ==> exists k :: 0 <= k < |refs| && r == Lookup(pool, refs[k]) && Open(p, r.value)
  {
    if refs == [] then None
    else if OpenRef(p, pool, refs[0]) then Lookup(pool, refs[0])
    else
      assert forall k :: 0 < k < |refs| ==> refs[k] == refs[1..][k - 1];
      FirstRef(p, pool, refs[1..])
  }

  predicate ClosedSource(p: seq<Source>, pool: seq<Source>, all: bool, s: Source) {
    forall k :: 0 <= k < |Refs(s, all)| ==> !OpenRef(p, pool, Refs(s, all)[k])
  }

  /** No source before `n` refers to a source that could still be appended. */
  predicate ClosedBefore(p: seq<Source>, pool: seq<Source>, all: bool, n: nat)
    requires n <= |p|
  {
    forall i :: 0 <= i < n ==> ClosedSource(p, pool, all, p[i])
  }

  function FirstOpen(p: seq<Source>, pool: seq<Source>, all: bool, i: nat): (r: Option<Source>)
    requires i <= |p|
    ensures r.None? <==> forall j :: i <= j < |p| ==> ClosedSource(p, pool, all, p[j])
    ensures r.Some? ==> Open(p, r.value) && r.value in pool
    decreases |p| - i
  {
    if i == |p| then None
    else
      var t := FirstRef(p, pool, Refs(p[i], all));
      if t.Some? then t else FirstOpen(p, pool, all, i + 1)
  }

  /** How well a source would serve the missing names; a longer text serves less. */
  datatype Rank = Rank(covered: nat, near: bool, length: nat)

  predicate Better(a: Rank, b: Rank) {
    if a.covered != b.covered then a.covered > b.covered
    else if a.near != b.near then a.near
    else a.length < b.length
  }

  function RankOf(s: Source, missing: set<Term>, near: set<string>): Rank {
    Rank(|missing * s.terms|, s.evidence.chapter in near, |s.evidence.text|)
  }

  predicate Offers(s: Source, seen: set<int>, used: set<Evidence>, missing: set<Term>) {
    s.id !in seen && missing * s.terms != {} && s.evidence !in used
  }

  /** The first best offer among the first `n` candidates. */
  function BestOf(pool: seq<Source>, seen: set<int>, used: set<Evidence>, missing: set<Term>, near: set<string>,
                  n: nat): (r: Option<nat>)
    requires n <= |pool|
    ensures r.Some? ==> r.value < n && Offers(pool[r.value], seen, used, missing)
  {
    if n == 0 then None
    else
      var prior := BestOf(pool, seen, used, missing, near, n - 1);
      if !Offers(pool[n - 1], seen, used, missing) then prior
      else if prior.None? || Better(RankOf(pool[n - 1], missing, near), RankOf(pool[prior.value], missing, near))
        then Some(n - 1)
      else prior
  }

  /** What Python's `max` promises: nothing ranks better, and what comes earlier ranks worse. */
  ghost predicate IsFirstBest(pool: seq<Source>, seen: set<int>, used: set<Evidence>, missing: set<Term>,
                              near: set<string>, n: nat, k: nat)
    requires n <= |pool|
  {
    && k < n && Offers(pool[k], seen, used, missing)
    && forall j :: 0 <= j < n && j != k && Offers(pool[j], seen, used, missing) ==>
      && !Better(RankOf(pool[j], missing, near), RankOf(pool[k], missing, near))
      && (j < k ==> Better(RankOf(pool[k], missing, near), RankOf(pool[j], missing, near)))
  }

  lemma {:induction false} BestIsFirstBest(pool: seq<Source>, seen: set<int>, used: set<Evidence>, missing: set<Term>,
                                           near: set<string>, n: nat)
    requires n <= |pool|
    ensures var r := BestOf(pool, seen, used, missing, near, n);
            if r.Some? then IsFirstBest(pool, seen, used, missing, near, n, r.value)
            else forall j :: 0 <= j < n ==> !Offers(pool[j], seen, used, missing)
  {
    if n > 0 { BestIsFirstBest(pool, seen, used, missing, near, n - 1); }
  }

  function BestName(p: seq<Source>, pool: seq<Source>, needed: set<Term>): (r: Option<Source>)
    ensures r.Some? ==> r.value in pool && (|p| < MAX_SELECTED ==> Open(p, r.value))
  {
    var k := BestOf(pool, Ids(p), Evidences(p), needed - Present(p), Chapters(p), |pool|);
    if k.None? then None else Some(pool[k.value])
  }

  function Next(p: seq<Source>, pool: seq<Source>, needed: set<Term>): (r: Option<Source>)
    ensures r.Some? ==> Open(p, r.value) && r.value in pool
  {
    if |p| >= MAX_SELECTED then None
    else if FirstOpen(p, pool, false, 0).Some? then FirstOpen(p, pool, false, 0)
    else if FirstOpen(p, pool, true, 0).Some? then FirstOpen(p, pool, true, 0)
    else BestName(p, pool, needed)
  }

  function Completed(p: seq<Source>, pool: seq<Source>, needed: set<Term>): seq<Source>
    decreases MAX_SELECTED - |p|
  {
    var next := Next(p, pool, needed);
    if next.None? then p else Completed(p + [next.value], pool, needed)
  }

  // ---- What completion gives ----

  lemma AppendSets(p: seq<Source>, s: Source)
    ensures Ids(p + [s]) == Ids(p) + {s.id} && Evidences(p + [s]) == Evidences(p) + {s.evidence}
    ensures Present(p + [s]) == Present(p) + s.terms
  {
    var q := p + [s];
    assert q[|p|] == s;
    assert forall i :: 0 <= i < |p| ==> q[i] == p[i];
    forall x | x in Ids(p) + {s.id} ensures x in Ids(q) {
      if x in Ids(p) { var i :| 0 <= i < |p| && p[i].id == x; assert q[i].id == x; }
    }
    forall x | x in Evidences(p) + {s.evidence} ensures x in Evidences(q) {
      if x in Evidences(p) { var i :| 0 <= i < |p| && p[i].evidence == x; assert q[i].evidence == x; }
    }
    forall x | x in Present(p) + s.terms ensures x in Present(q) {
      if x in Present(p) { var i :| 0 <= i < |p| && x in p[i].terms; assert x in q[i].terms; }
    }
  }

  /** Everything appended shows evidence that nothing before it shows. */
  predicate NewEvidence(p: seq<Source>, from: nat) {
    forall i, j :: 0 <= i < j < |p| && j >= from ==> p[i].evidence != p[j].evidence
  }

  lemma AppendKeeps(p: seq<Source>, pool: seq<Source>, s: Source, from: nat)
    requires ValidSelection(p, pool) && NewEvidence(p, from) && from <= |p| && Open(p, s) && s in pool
    ensures ValidSelection(p + [s], pool) && NewEvidence(p + [s], from)
  {
    var q := p + [s];
    forall i, j | 0 <= i < j < |q| ensures q[i].id != q[j].id && (j >= from ==> q[i].evidence != q[j].evidence) {
      assert p[i].id in Ids(p) && p[i].evidence in Evidences(p);
    }
    forall i | 0 <= i < |q| ensures q[i] in pool {
      assert i < |p| ==> q[i] == p[i];
    }
  }

  /** The selection stays in front; at most six distinct candidates; what is added shows new evidence. */
  lemma {:induction false} CompletedExtends(p: seq<Source>, pool: seq<Source>, needed: set<Term>, from: nat)
    requires ValidSelection(p, pool) && NewEvidence(p, from) && from <= |p|
    ensures var r := Completed(p, pool, needed); p <= r && ValidSelection(r, pool) && NewEvidence(r, from)
    decreases MAX_SELECTED - |p|
  {
    hide Next;
    hide ValidSelection;
    hide NewEvidence;
    var next := Next(p, pool, needed);
    if next.Some? {
      AppendKeeps(p, pool, next.value, from);
      CompletedExtends(p + [next.value], pool, needed, from);
    }
  }

  lemma {:induction false} CompletedIsDone(p: seq<Source>, pool: seq<Source>, needed: set<Term>)
    ensures Next(Completed(p, pool, needed), pool, needed).None?
    decreases MAX_SELECTED - |p|
  {
    var next := Next(p, pool, needed);
    if next.Some? { CompletedIsDone(p + [next.value], pool, needed); }
  }

  /** Every reference of every source leads to a source, or at least to evidence, that is already there. */
  predicate ClosedUnderRefs(r: seq<Source>, pool: seq<Source>) {
    forall i, k :: 0 <= i < |r| && 0 <= k < |Refs(r[i], true)| ==>
      Lookup(pool, Refs(r[i], true)[k]).Some? && Lookup(pool, Refs(r[i], true)[k]).value.evidence in Evidences(r)
  }

  /** A completion with room to spare is closed under context and continuity references. */
  lemma SpareRoomIsClosed(p: seq<Source>, pool: seq<Source>, needed: set<Term>)
    requires ValidPool(pool) && ValidSelection(p, pool) && |Completed(p, pool, needed)| < MAX_SELECTED
    ensures ClosedUnderRefs(Completed(p, pool, needed), pool)
  {
    var r := Completed(p, pool, needed);
    CompletedIsDone(p, pool, needed);
    assert NewEvidence(p, |p|);
    CompletedExtends(p, pool, needed, |p|);
    assert FirstOpen(r, pool, true, 0).None?;
    forall i, k | 0 <= i < |r| && 0 <= k < |Refs(r[i], true)|
      ensures Lookup(pool, Refs(r[i], true)[k]).Some?
              && Lookup(pool, Refs(r[i], true)[k]).value.evidence in Evidences(r)
    {
      assert ClosedSource(r, pool, true, r[i]);
      RefExists(pool, r[i], k);
      HeldOrShown(r, pool, Lookup(pool, Refs(r[i], true)[k]).value);
    }
  }

  lemma RefExists(pool: seq<Source>, s: Source, k: nat)
    requires ValidPool(pool) && s in pool && k < |Refs(s, true)|
    ensures Lookup(pool, Refs(s, true)[k]).Some?
  {
    assert ValidRefs(s, pool);
    if k < |s.contextIds| { assert NearBy(s, Lookup(pool, s.contextIds[k])); }
    else { assert JustBefore(s, Lookup(pool, s.continuityIds[k - |s.contextIds|])); }
  }

  /** Within one pool an id determines the source. */
  lemma HeldOrShown(r: seq<Source>, pool: seq<Source>, t: Source)
    requires ValidSelection(r, pool) && DistinctIds(pool) && t in pool && |r| < MAX_SELECTED && !Open(r, t)
    ensures t.evidence in Evidences(r)
  {
    if t.id in Ids(r) {
      var i :| 0 <= i < |r| && r[i].id == t.id;
      assert r[i] in pool;
      assert r[i].evidence in Evidences(r);
    }
  }

  /** A name is solid when some bearer shows evidence that only bearers show. */
  ghost predicate Solid(pool: seq<Source>, t: Term) {
    exists c :: c in pool && t in c.terms && OnlyBearers(pool, c, t)
  }

  predicate OnlyBearers(pool: seq<Source>, c: Source, t: Term) {
    forall d :: d in pool && d.evidence == c.evidence ==> t in d.terms
  }

  /** With room to spare, a name is covered or its bearers show nothing new. */
  lemma CoveredOrShown(p: seq<Source>, pool: seq<Source>, needed: set<Term>, c: Source, t: Term)
    requires ValidPool(pool) && ValidSelection(p, pool) && |Completed(p, pool, needed)| < MAX_SELECTED
    requires t in needed && c in pool && t in c.terms
    ensures t in Present(Completed(p, pool, needed)) || c.evidence in Evidences(Completed(p, pool, needed))
  {
    var r := Completed(p, pool, needed);
    CompletedIsDone(p, pool, needed);
    assert NewEvidence(p, |p|);
    CompletedExtends(p, pool, needed, |p|);
    BestIsFirstBest(pool, Ids(r), Evidences(r), needed - Present(r), Chapters(r), |pool|);
    if t !in Present(r) {
      assert t in (needed - Present(r)) * c.terms;
      HeldOrShown(r, pool, c);
    }
  }

  /** A completion with room to spare covers every solid name that is needed. */
  lemma SpareRoomCoversNames(p: seq<Source>, pool: seq<Source>, needed: set<Term>)
    requires ValidPool(pool) && ValidSelection(p, pool) && |Completed(p, pool, needed)| < MAX_SELECTED
    ensures forall t :: t in needed && Solid(pool, t) ==> t in Present(Completed(p, pool, needed))
  {
    var r := Completed(p, pool, needed);
    assert NewEvidence(p, |p|);
    CompletedExtends(p, pool, needed, |p|);
    forall t | t in needed && Solid(pool, t) ensures t in Present(r) {
      var c :| c in pool && t in c.terms && OnlyBearers(pool, c, t);
      CoveredOrShown(p, pool, needed, c, t);
      if c.evidence in Evidences(r) {
        var i :| 0 <= i < |r| && r[i].evidence == c.evidence;
        assert r[i] in pool;
      }
    }
  }

  // ---- Exactly when a name stays missing ----

  lemma {:induction false} NamesComeLast(p: seq<Source>, pool: seq<Source>, needed: set<Term>)
    requires |Completed(p, pool, {})| < MAX_SELECTED
    ensures Completed(p, pool, needed) == Completed(Completed(p, pool, {}), pool, needed)
    decreases MAX_SELECTED - |p|
  {
    BestIsFirstBest(pool, Ids(p), Evidences(p), {} - Present(p), Chapters(p), |pool|);
    assert BestName(p, pool, {}).None?;
    var next := Next(p, pool, {});
    if next.Some? {
      assert Next(p, pool, needed) == next;
      NamesComeLast(p + [next.value], pool, needed);
    }
  }

  /**
   Exactly when the completion lacks a needed name: what the references alone reach leaves it out, and every
   bearer of it shows evidence that is already there.
   */
  lemma NameIsMissedExactly(p: seq<Source>, pool: seq<Source>, t: Term)
    requires ValidPool(pool) && ValidSelection(p, pool) && |Completed(p, pool, {})| < MAX_SELECTED
    ensures var reach := Completed(p, pool, {});
            t !in Present(Completed(p, pool, {t}))
            <==> t !in Present(reach) && forall c :: c in pool && t in c.terms ==> c.evidence in Evidences(reach)
  {
    var reach := Completed(p, pool, {});
    assert NewEvidence(p, |p|);
    CompletedExtends(p, pool, {}, |p|);
    NamesComeLast(p, pool, {t});
    CompletedIsDone(p, pool, {});
    NameAfterRefs(reach, pool, t);
  }

  lemma NameAfterRefs(reach: seq<Source>, pool: seq<Source>, t: Term)
    requires ValidPool(pool) && ValidSelection(reach, pool) && |reach| < MAX_SELECTED && Next(reach, pool, {}).None?
    ensures t !in Present(Completed(reach, pool, {t}))
            <==> t !in Present(reach) && forall c :: c in pool && t in c.terms ==> c.evidence in Evidences(reach)
  {
    assert NewEvidence(reach, |reach|);
    CompletedExtends(reach, pool, {t}, |reach|);
    PresentGrows(reach, Completed(reach, pool, {t}));
    BestIsFirstBest(pool, Ids(reach), Evidences(reach), {t} - Present(reach), Chapters(reach), |pool|);
    var next := Next(reach, pool, {t});
    if next.Some? {
      NameIsAdded(reach, pool, t);
    } else if t !in Present(reach) {
      forall c | c in pool && t in c.terms ensures c.evidence in Evidences(reach) {
        assert t in ({t} - Present(reach)) * c.terms;
        HeldOrShown(reach, pool, c);
      }
    }
  }

  lemma NameIsAdded(reach: seq<Source>, pool: seq<Source>, t: Term)
    requires ValidPool(pool) && ValidSelection(reach, pool) && Next(reach, pool, {}).None?
             && Next(reach, pool, {t}).Some?
    ensures var c := Next(reach, pool, {t}).value;
            c in pool && t in c.terms && t !in Present(reach) && c.evidence !in Evidences(reach)
            && t in Present(Completed(reach, pool, {t}))
  {
    var c := Next(reach, pool, {t}).value;
    assert BestName(reach, pool, {t}) == Some(c);
    assert ({t} - Present(reach)) * c.terms != {};
    assert NewEvidence(reach, |reach|);
    AppendKeeps(reach, pool, c, |reach|);
    CompletedExtends(reach + [c], pool, {t}, |reach|);
    AppendSets(reach, c);
    PresentGrows(reach + [c], Completed(reach + [c], pool, {t}));
  }

  lemma PresentGrows(p: seq<Source>, r: seq<Source>)
    requires p <= r
    ensures Present(p) <= Present(r)
  {
    forall t | t in Present(p) ensures t in Present(r) {
      var i :| 0 <= i < |p| && t in p[i].terms;
      assert t in r[i].terms;
    }
  }

  // ---- Exactly which names no selection can miss ----

  /** A selection that hides a name: closed, with room, without a bearer, and showing the evidence of every bearer. */
  ghost predicate Hides(r: seq<Source>, pool: seq<Source>, t: Term) {
    && ValidSelection(r, pool) && |r| < MAX_SELECTED && ClosedUnderRefs(r, pool) && t !in Present(r)
    && forall c :: c in pool && t in c.terms ==> c.evidence in Evidences(r)
  }

  /** Whatever is selected and whatever else is needed, a completion with room to spare covers the name. */
  ghost predicate AlwaysCovered(pool: seq<Source>, t: Term) {
    forall p, needed ::
      p != [] && ValidSelection(p, pool) && t in needed && needed <= Present(pool)
      && |Completed(p, pool, needed)| < MAX_SELECTED
      ==> t in Present(Completed(p, pool, needed))
  }

  lemma MissedIsHidden(p: seq<Source>, pool: seq<Source>, needed: set<Term>, t: Term)
    requires ValidPool(pool) && ValidSelection(p, pool) && |Completed(p, pool, needed)| < MAX_SELECTED
    requires t in needed && t !in Present(Completed(p, pool, needed))
    ensures Hides(Completed(p, pool, needed), pool, t)
  {
    assert NewEvidence(p, |p|);
    CompletedExtends(p, pool, needed, |p|);
    SpareRoomIsClosed(p, pool, needed);
    forall c | c in pool && t in c.terms ensures c.evidence in Evidences(Completed(p, pool, needed)) {
      CoveredOrShown(p, pool, needed, c, t);
    }
  }

  lemma HiddenIsMissed(r: seq<Source>, pool: seq<Source>, t: Term)
    requires Hides(r, pool, t)
    ensures Completed(r, pool, {t}) == r
  {
    forall s, all | s in r ensures ClosedSource(r, pool, all, s) {
      var i :| 0 <= i < |r| && r[i] == s;
      forall k | 0 <= k < |Refs(s, all)| ensures !OpenRef(r, pool, Refs(s, all)[k]) {
        var j := if all then k else |s.contextIds| + k;
        assert Refs(r[i], true)[j] == Refs(s, all)[k];
      }
    }
    BestIsFirstBest(pool, Ids(r), Evidences(r), {t} - Present(r), Chapters(r), |pool|);
    assert forall c :: c in pool && ({t} - Present(r)) * c.terms != {} ==> t in c.terms;
  }

  lemma HidingIsMissing(r: seq<Source>, pool: seq<Source>, t: Term)
    requires Hides(r, pool, t) && t in Present(pool)
    ensures !AlwaysCovered(pool, t)
  {
    HiddenIsMissed(r, pool, t);
    var i :| 0 <= i < |pool| && t in pool[i].terms;
    assert pool[i] in pool && pool[i].evidence in Evidences(r);
    hide Completed;
    hide ClosedUnderRefs;
    assert r != [] && t !in Present(Completed(r, pool, {t}));
  }

  /** A name that occurs is always covered exactly when no selection hides it. */
  lemma AlwaysCoveredExactly(pool: seq<Source>, t: Term)
    requires ValidPool(pool) && t in Present(pool)
    ensures AlwaysCovered(pool, t) <==> forall r :: !Hides(r, pool, t)
  {
    hide Hides;
    hide Completed;
    hide ValidPool;
    if r :| Hides(r, pool, t) {
      HidingIsMissing(r, pool, t);
    } else {
      forall p, needed | p != [] && ValidSelection(p, pool) && t in needed && needed <= Present(pool)
                         && |Completed(p, pool, needed)| < MAX_SELECTED
        ensures t in Present(Completed(p, pool, needed))
      {
        if t !in Present(Completed(p, pool, needed)) { MissedIsHidden(p, pool, needed, t); }
      }
    }
  }

  lemma SolidIsShown(pool: seq<Source>, t: Term, r: seq<Source>)
    requires Solid(pool, t) && ValidSelection(r, pool)
    requires forall c :: c in pool && t in c.terms ==> c.evidence in Evidences(r)
    ensures t in Present(r)
  {
    var c :| c in pool && t in c.terms && OnlyBearers(pool, c, t);
    var i :| 0 <= i < |r| && r[i].evidence == c.evidence;
    assert r[i] in pool && t in r[i].terms;
  }

  function Bearers(pool: seq<Source>, t: Term): set<Evidence> {
    set i | 0 <= i < |pool| && t in pool[i].terms :: pool[i].evidence
  }

  /** A twin shows the evidence of a bearer but does not bear the name. */
  predicate Twin(pool: seq<Source>, t: Term, d: Source) {
    d in pool && t !in d.terms && d.evidence in Bearers(pool, t)
  }

  /** Twins refer only to evidence of bearers, of which at most five are told apart. */
  predicate TwinsFit(pool: seq<Source>, t: Term) {
    && |Bearers(pool, t)| < MAX_SELECTED
    && forall i, k :: 0 <= i < |pool| && Twin(pool, t, pool[i]) && 0 <= k < |Refs(pool[i], true)| ==>
         var target := Lookup(pool, Refs(pool[i], true)[k]);
         target.Some? && target.value.evidence in Bearers(pool, t)
  }

  lemma TwinOf(pool: seq<Source>, t: Term, e: Evidence) returns (d: Source)
    requires !Solid(pool, t) && e in Bearers(pool, t)
    ensures Twin(pool, t, d) && d.evidence == e
  {
    var i :| 0 <= i < |pool| && t in pool[i].terms && pool[i].evidence == e;
    assert pool[i] in pool && !OnlyBearers(pool, pool[i], t);
    d :| d in pool && d.evidence == e && t !in d.terms;
  }

  predicate AllTwins(pool: seq<Source>, t: Term, r: seq<Source>) {
    forall i :: 0 <= i < |r| ==> Twin(pool, t, r[i])
  }

  lemma AddTwin(pool: seq<Source>, t: Term, r: seq<Source>, d: Source)
    requires DistinctIds(pool) && DistinctIds(r) && AllTwins(pool, t, r) && Twin(pool, t, d)
             && d.evidence !in Evidences(r)
    ensures DistinctIds(r + [d]) && AllTwins(pool, t, r + [d]) && Evidences(r + [d]) == Evidences(r) + {d.evidence}
  {
    AppendSets(r, d);
    forall j | 0 <= j < |r| ensures r[j].id != d.id {
      assert r[j].evidence in Evidences(r) && Twin(pool, t, r[j]);
    }
  }

  lemma NoTwins(pool: seq<Source>, t: Term)
    ensures Evidences([]) == {} && DistinctIds([]) && AllTwins(pool, t, [])
  {
  }

  /** One twin for each piece of evidence. */
  lemma {:induction false} ChooseTwins(pool: seq<Source>, t: Term, es: set<Evidence>) returns (r: seq<Source>)
    requires DistinctIds(pool) && !Solid(pool, t) && es <= Bearers(pool, t)
    ensures |r| == |es| && Evidences(r) == es && DistinctIds(r) && AllTwins(pool, t, r)
    decreases |es|
  {
    hide *;
    if es == {} {
      NoTwins(pool, t);
      return [];
    }
    var e :| e in es;
    var rest := ChooseTwins(pool, t, es - {e});
    var d := TwinOf(pool, t, e);
    AddTwin(pool, t, rest, d);
    r := rest + [d];
    assert es == (es - {e}) + {e};
  }

  /** Where the twins fit into a selection, a name that occurs is always covered exactly when it is solid. */
  lemma SolidExactly(pool: seq<Source>, t: Term)
    requires ValidPool(pool) && t in Present(pool) && TwinsFit(pool, t)
    ensures AlwaysCovered(pool, t) <==> Solid(pool, t)
  {
    AlwaysCoveredExactly(pool, t);
    hide AlwaysCovered;
    if Solid(pool, t) {
      forall r ensures !Hides(r, pool, t) {
        if Hides(r, pool, t) { SolidIsShown(pool, t, r); }
      }
    } else {
      var r := ChooseTwins(pool, t, Bearers(pool, t));
      TwinsHide(pool, t, r);
    }
  }

  lemma TwinsHide(pool: seq<Source>, t: Term, r: seq<Source>)
    requires TwinsFit(pool, t) && |r| < MAX_SELECTED && Evidences(r) == Bearers(pool, t) && DistinctIds(r)
    requires AllTwins(pool, t, r)
    ensures Hides(r, pool, t)
  {
    forall i, k | 0 <= i < |r| && 0 <= k < |Refs(r[i], true)|
      ensures Lookup(pool, Refs(r[i], true)[k]).Some?
              && Lookup(pool, Refs(r[i], true)[k]).value.evidence in Evidences(r)
    {
      assert Twin(pool, t, r[i]);
      var j :| 0 <= j < |pool| && pool[j] == r[i];
      assert Refs(pool[j], true)[k] == Refs(r[i], true)[k];
    }
    forall c | c in pool && t in c.terms ensures c.evidence in Evidences(r) {
      var j :| 0 <= j < |pool| && pool[j] == c;
    }
  }

  /**
   The opening of a chapter and a later copy of its words, as in "Anna ran home" under the title "Anna": the
   title counts as a name in the copy only, so the opening hides the name.
   */
  lemma TitleTwinHidesName(words: string -> set<Term>, title: string, rest: string, t: Term)
    requires Passages.IsWord(title) && rest != "" && !IsSpace(rest[0]) && |title| + 1 + |rest| <= PASSAGE_CHARS
    requires t in words(title + " " + rest) && t !in words(rest)
    ensures var e := Evidence("c", 1, title + " " + rest);
            var opening, copy := Excerpt(1, e, [], [], title, Some(0)), Excerpt(2, e, [], [], title, Some(900));
            var pool := AllNamed(words, [opening, copy]);
            && ValidPool(pool) && t in Present(pool) && !Solid(pool, t) && Hides([pool[0]], pool, t)
            && Completed([pool[0]], pool, {t}) == [pool[0]]
  {
    var e := Evidence("c", 1, title + " " + rest);
    var opening, copy := Excerpt(1, e, [], [], title, Some(0)), Excerpt(2, e, [], [], title, Some(900));
    var pool := AllNamed(words, [opening, copy]);
    TitleIsSkipped(opening, rest);
    assert NameText(copy) == e.text;
    assert !IsSpace(e.text[0]);
    hide NameText;
    assert pool == [Source(opening, words(rest)), Source(copy, words(e.text))];
    TwinHidesName(pool[0], pool[1], t);
  }

  lemma TitleIsSkipped(e: Excerpt, rest: string)
    requires Passages.IsWord(e.title) && rest != "" && !IsSpace(rest[0])
    requires e.offset == Some(0) && e.evidence.text == e.title + " " + rest
    ensures NameText(e) == rest
  {
    Passages.WordEndOfWord(e.title, "");
    assert e.title + "" == e.title;
    assert Passages.NormalizeSource(e.title) == e.title by {
      assert Passages.Words(e.title) == [e.title];
    }
    assert e.evidence.text == e.title + (" " + rest) && e.evidence.text[|e.title|..] == " " + rest;
    LeadingSpace(rest);
  }

  lemma LeadingSpace(s: string)
    requires s != "" && !IsSpace(s[0])
    ensures SkipSpace(" " + s) == s
  {
    assert (" " + s)[1..] == s;
  }

  /** Of two candidates with the same evidence and no references, the one without the name hides it. */
  lemma TwinHidesName(plain: Source, bearer: Source, t: Term)
    requires plain.evidence == bearer.evidence && plain.id != bearer.id && t in bearer.terms && t !in plain.terms
    requires plain.contextIds == [] && plain.continuityIds == []
    ensures var pool := [plain, bearer];
            t in Present(pool) && !Solid(pool, t) && Hides([plain], pool, t) && Completed([plain], pool, {t}) == [plain]
  {
    var pool := [plain, bearer];
    assert [plain][0].evidence in Evidences([plain]);
    assert pool[0] in pool && pool[1] in pool && t in pool[1].terms;
    HiddenIsMissed([plain], pool, t);
    forall c | c in pool && t in c.terms ensures !OnlyBearers(pool, c, t) { assert plain in pool; }
  }
}
