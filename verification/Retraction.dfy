/**
 Taking a chapter back, and extracting a summary again: what disappears from every bookmark's view, what
 stays, and that the key of a retracted chapter cannot be used again.
 */
module Retraction {
  import opened Wrappers
  import opened StoryMemory
  import opened BookmarkView
  import opened StoryTime
  import opened Ingestion

  lemma LiveUnlessRetracted(s: Store, key: string, b: int, k: string)
    ensures ChapterLive(RetractChapter(s, key), b, k) <==> k != key && ChapterLive(s, b, k)
  {
    var u := RetractChapter(s, key);
    if ChapterLive(u, b, k) {
      var i :| 0 <= i < |u.chapters| && u.chapters[i].fact.key == k && VisibleAt(u.chapters[i], b);
      assert s.chapters[i].fact.key == k && VisibleAt(s.chapters[i], b);
    }
    if k != key && ChapterLive(s, b, k) {
      var i :| 0 <= i < |s.chapters| && s.chapters[i].fact.key == k && VisibleAt(s.chapters[i], b);
      assert u.chapters[i] == s.chapters[i];
    }
  }

  predicate IsListed(s: Store, b: int, h: Hit<Chapter>) {
    && ValidId(s.chapters, h.id) && VisibleAt(s.chapters[h.id - 1], b)
    && h == Hit(h.id, s.chapters[h.id - 1].revealedAt, s.chapters[h.id - 1].fact)
  }

  lemma ChapterMembers(s: Store, b: int)
    ensures forall h :: h in Chapters(s, b) <==> IsListed(s, b, h)
  {
    SelectMembers(s.chapters, b, Any());
    OrderByMembers(Select(s.chapters, b, Any()), ByOrdinalThenKey());
    hide Select;
    hide OrderBy;
  }

  /** The chapter list loses the chapter and nothing else. */
  lemma ChaptersAfter(s: Store, key: string, b: int)
    ensures forall h :: h in Chapters(RetractChapter(s, key), b) <==> h in Chapters(s, b) && h.fact.key != key
  {
    var u := RetractChapter(s, key);
    ChapterMembers(s, b);
    ChapterMembers(u, b);
    hide Chapters;
    forall h ensures IsListed(u, b, h) <==> IsListed(s, b, h) && h.fact.key != key {}
    hide IsListed;
  }

  // ---- Summaries ----

  /** The current summaries of one kind: a chapter's own, or rolling recaps. */
  function Current(s: Store, b: int, kind: SummaryKind): seq<Hit<Summary>> {
    if kind.ChapterSummary? then ChapterSummaries(s, b) else RollingRecaps(s, b)
  }

  /** A rolling recap is current whether or not its chapter is. */
  predicate IsCurrent(s: Store, b: int, kind: SummaryKind, h: Hit<Summary>) {
    && ValidId(s.summaries, h.id) && VisibleAt(s.summaries[h.id - 1], b)
    && h == Hit(h.id, s.summaries[h.id - 1].revealedAt, s.summaries[h.id - 1].fact)
    && h.fact.kind == kind && (kind.ChapterSummary? ==> ChapterLive(s, b, h.fact.chapterKey))
  }

  lemma CurrentMembers(s: Store, b: int, kind: SummaryKind)
    ensures forall h :: h in Current(s, b, kind) <==> IsCurrent(s, b, kind, h)
  {
    if kind.ChapterSummary? {
      SelectMembers(s.summaries, b, ChapterRecap(s, b));
      OrderByMembers(Select(s.summaries, b, ChapterRecap(s, b)), Oldest());
    } else {
      SelectMembers(s.summaries, b, Rolling());
      OrderByMembers(Select(s.summaries, b, Rolling()), Newest());
    }
    hide Select;
    hide OrderBy;
  }

  ghost predicate SummedWithout(s: Store, u: Store, key: string, b: int, kind: SummaryKind) {
    forall h :: h in Current(u, b, kind) <==> h in Current(s, b, kind) && h.fact.chapterKey != key
  }

  /** The current summaries lose those of the chapter and nothing else. */
  lemma SummariesAfter(s: Store, key: string, b: int, kind: SummaryKind)
    ensures SummedWithout(s, RetractChapter(s, key), key, b, kind)
  {
    var u := RetractChapter(s, key);
    CurrentMembers(s, b, kind);
    CurrentMembers(u, b, kind);
    forall h ensures IsCurrent(u, b, kind, h) <==> IsCurrent(s, b, kind, h) && h.fact.chapterKey != key {
      LiveUnlessRetracted(s, key, b, h.fact.chapterKey);
    }
    hide Current;
    hide IsCurrent;
  }

  lemma {:induction false} NewestFirst<T(!new)>(hits: seq<Hit<T>>)
    requires hits != []
    ensures var r := OrderBy(hits, Newest());
            r != [] && r[0] in hits && forall h :: h in hits ==> !Newest()(h, r[0])
  {
    var n := |hits| - 1;
    assert hits == hits[..n] + [hits[n]];
    if n > 0 { NewestFirst(hits[..n]); }
  }

  /** The newest of the hits that do not belong to the chapter. */
  ghost predicate NewestLeft(hits: seq<Hit<Summary>>, key: string, h: Hit<Summary>) {
    && h in hits && h.fact.chapterKey != key
    && forall g :: g in hits && g.fact.chapterKey != key ==> !Newest()(g, h)
  }

  /** Catching up counts the same people and ties, and tells the newest recap that is left. */
  ghost predicate CatchesUpWithout(s: Store, u: Store, key: string, b: int) {
    var was, now := CatchMeUp(s, b), CatchMeUp(u, b);
    && now.castSize == was.castSize && now.openThreads == was.openThreads && now.asOf == b
    && (now.recap.None? ==> forall h :: h in RollingRecaps(s, b) ==> h.fact.chapterKey == key)
    && (now.recap.Some? ==> exists h :: NewestLeft(RollingRecaps(s, b), key, h) && h.fact.text == now.recap.value)
  }

  lemma CatchUpAfter(s: Store, key: string, b: int)
    ensures CatchesUpWithout(s, RetractChapter(s, key), key, b)
  {
    var u := RetractChapter(s, key);
    SummariesAfter(s, key, b, RollingRecap);
    StoryFromTables(s, u, b);
    var left := RollingRecaps(u, b);
    assert Characters(u, b) == Characters(s, b) && EdgeHits(u, b) == EdgeHits(s, b);
    var hits := Select(u.summaries, b, Rolling());
    OrderByMembers(hits, Newest());
    if left == [] {
      assert forall h :: h !in Current(u, b, RollingRecap);
    } else {
      assert left[0] in left;
      NewestFirst(hits);
      assert NewestLeft(RollingRecaps(s, b), key, left[0]) by { hide OrderBy; hide Select; }
    }
  }

  // ---- Texts and passages ----

  /** Its text can no longer be read; every other chapter's can, as before. */
  lemma RawAfter(s: Store, key: string, b: int, k: string)
    ensures ReadRaw(RetractChapter(s, key), b, k) == if k == key then None else ReadRaw(s, b, k)
  {
    var u := RetractChapter(s, key);
    LiveUnlessRetracted(s, key, b, k);
    if k == key {
      SelectMembers(u.raws, b, RawOf(u, b, k));
      var rows := Select(u.raws, b, RawOf(u, b, k));
      assert rows != [] ==> rows[0] in rows;
    } else {
      forall i | 0 <= i < |s.raws|
        ensures (VisibleAt(s.raws[i], b) && RawOf(s, b, k)(i + 1, s.raws[i].fact))
                == (VisibleAt(u.raws[i], b) && RawOf(u, b, k)(i + 1, u.raws[i].fact))
      {
        assert s.raws[i].fact.chapterKey == k ==> u.raws[i] == s.raws[i];
      }
      SelectPointwise(s.raws, u.raws, b, RawOf(s, b, k), RawOf(u, b, k));
    }
  }

  function ModelOf(s: Store, asked: Option<string>): Option<string> {
    if asked.Some? then asked else if s.pin.Some? then Some(s.pin.value.model) else None
  }

  predicate IsRanked(s: Store, b: int, query: seq<real>, asked: Option<string>, h: Hit<Chunk>) {
    && ValidId(s.chunks, h.id) && VisibleAt(s.chunks[h.id - 1], b)
    && h == Hit(h.id, s.chunks[h.id - 1].revealedAt, s.chunks[h.id - 1].fact)
    && ChapterLive(s, b, h.fact.chapterKey) && |h.fact.vec| == |query|
    && (ModelOf(s, asked).None? || h.fact.model == ModelOf(s, asked))
  }

  lemma RankingMembers(s: Store, b: int, cosine: (seq<real>, seq<real>) -> real, query: seq<real>,
                       asked: Option<string>)
    ensures forall h :: h in Ranking(s, b, cosine, query, asked) <==> IsRanked(s, b, query, asked, h)
  {
    var where := Comparable(s, b, query, ModelOf(s, asked));
    SelectMembers(s.chunks, b, where);
    OrderByMembers(Select(s.chunks, b, where), Closest(cosine, query));
    hide Select;
    hide OrderBy;
    hide ChapterLive;
  }

  ghost predicate RankedWithout(s: Store, u: Store, key: string, b: int, cosine: (seq<real>, seq<real>) -> real,
                                query: seq<real>, asked: Option<string>) {
    forall h :: h in Ranking(u, b, cosine, query, asked)
                <==> h in Ranking(s, b, cosine, query, asked) && h.fact.chapterKey != key
  }

  /** A search ranks the passages of every other chapter, as before, and none of this one. */
  lemma RankingAfter(s: Store, key: string, b: int, cosine: (seq<real>, seq<real>) -> real,
                     query: seq<real>, asked: Option<string>)
    ensures RankedWithout(s, RetractChapter(s, key), key, b, cosine, query, asked)
  {
    var u := RetractChapter(s, key);
    RankingMembers(s, b, cosine, query, asked);
    RankingMembers(u, b, cosine, query, asked);
    hide Ranking;
    forall h ensures IsRanked(u, b, query, asked, h) <==> IsRanked(s, b, query, asked, h) && h.fact.chapterKey != key {
      LiveUnlessRetracted(s, key, b, h.fact.chapterKey);
      hide ChapterLive;
    }
    hide IsRanked;
  }

  /** What was extracted about people, ties, events and states is not taken back. */
  ghost predicate SameStory(s: Store, t: Store, b: int) {
    && (forall kind :: EntitiesOfType(t, b, kind) == EntitiesOfType(s, b, kind))
    && (forall e :: AliasesOf(t, b, e) == AliasesOf(s, b, e)) && Relationships(t, b) == Relationships(s, b)
    && Timeline(t, b) == Timeline(s, b) && (forall e :: ParticipantsOf(t, b, e) == ParticipantsOf(s, b, e))
    && (forall e :: EventsFor(t, b, e) == EventsFor(s, b, e)) && Themes(t, b) == Themes(s, b)
    && (forall e :: CurrentState(t, b, e) == CurrentState(s, b, e)) && (forall e :: Bio(t, b, e) == Bio(s, b, e))
  }

  /** The reads of the story depend only on the tables of the story. */
  ghost predicate SameStoryTables(s: Store, t: Store) {
    t.entities == s.entities && t.aliases == s.aliases && t.edges == s.edges && t.events == s.events
      && t.links == s.links
    && t.themes == s.themes && t.states == s.states
  }

  lemma StatesFromTables(s: Store, t: Store, b: int, e: nat)
    requires SameStoryTables(s, t)
    ensures CurrentState(t, b, e) == CurrentState(s, b, e) && AliasesOf(t, b, e) == AliasesOf(s, b, e)
  {
    SelectPointwise(s.states, t.states, b, StateOf(s, b, e), StateOf(t, b, e));
    SelectPointwise(s.aliases, t.aliases, b, AliasOf(s, b, e), AliasOf(t, b, e));
  }

  lemma EventsFromTables(s: Store, t: Store, b: int, e: nat)
    requires SameStoryTables(s, t)
    ensures EventsFor(t, b, e) == EventsFor(s, b, e) && ParticipantsOf(t, b, e) == ParticipantsOf(s, b, e)
  {
    SelectPointwise(s.events, t.events, b, Attended(s, b, e), Attended(t, b, e));
    SelectPointwise(s.entities, t.entities, b, InCast(s, b, e), InCast(t, b, e));
  }

  lemma StoryFromTables(s: Store, t: Store, b: int)
    requires SameStoryTables(s, t)
    ensures SameStory(s, t, b)
  {
    forall e
      ensures CurrentState(t, b, e) == CurrentState(s, b, e) && AliasesOf(t, b, e) == AliasesOf(s, b, e)
    {
      StatesFromTables(s, t, b, e);
    }
    forall e
      ensures EventsFor(t, b, e) == EventsFor(s, b, e) && ParticipantsOf(t, b, e) == ParticipantsOf(s, b, e)
    {
      EventsFromTables(s, t, b, e);
    }
    SelectPointwise(s.edges, t.edges, b, EndsVisible(s, b), EndsVisible(t, b));
    hide Select;
    hide OrderBy;
  }

  ghost predicate ListsWithout(s: Store, u: Store, key: string, b: int) {
    && (forall h :: h in Chapters(u, b) <==> h in Chapters(s, b) && h.fact.key != key)
    && (forall kind :: SummedWithout(s, u, key, b, kind))
    && (forall k :: ReadRaw(u, b, k) == if k == key then None else ReadRaw(s, b, k))
  }

  ghost predicate RanksWithout(s: Store, u: Store, key: string, b: int, cosine: (seq<real>, seq<real>) -> real) {
    forall query, asked :: RankedWithout(s, u, key, b, cosine, query, asked)
  }

  lemma ListsAfter(s: Store, key: string, b: int)
    ensures ListsWithout(s, RetractChapter(s, key), key, b)
  {
    var u := RetractChapter(s, key);
    ChaptersAfter(s, key, b);
    forall k ensures ReadRaw(u, b, k) == if k == key then None else ReadRaw(s, b, k) { RawAfter(s, key, b, k); }
    forall kind ensures SummedWithout(s, u, key, b, kind) { SummariesAfter(s, key, b, kind); }
  }

  /**
   A retracted chapter is gone from every bookmark's chapters, texts, summaries, catch-up and searches. Those of
   the other chapters, and every read of the story itself, answer as before.
   */
  lemma RetractedChapterIsGone(s: Store, key: string, b: int, cosine: (seq<real>, seq<real>) -> real)
    ensures var u := RetractChapter(s, key);
            && ListsWithout(s, u, key, b) && RanksWithout(s, u, key, b, cosine)
            && CatchesUpWithout(s, u, key, b) && SameStory(s, u, b)
  {
    var u := RetractChapter(s, key);
    ListsAfter(s, key, b);
    CatchUpAfter(s, key, b);
    StoryFromTables(s, u, b);
    forall query, asked ensures RankedWithout(s, u, key, b, cosine, query, asked) {
      RankingAfter(s, key, b, cosine, query, asked);
    }
  }

  lemma {:induction false} NotLive(chapters: seq<Row<Chapter>>, key: string)
    requires forall i :: 0 <= i < |chapters| && chapters[i].fact.key == key ==> chapters[i].retracted
    ensures LiveChapter(chapters, key).None?
  {
    if chapters != [] { NotLive(chapters[..|chapters| - 1], key); }
  }

  /** The key stays taken: ingesting the chapter again raises and stores nothing. */
  lemma RetractedKeyIsTaken(tools: Tools, s: Store, src: Source, ex: Extraction)
    requires HasKey(s.chapters, src.key)
    ensures Ingest(tools, RetractChapter(s, src.key), src, ex) == Raised(RetractChapter(s, src.key), DuplicateKey)
  {
    var u := RetractChapter(s, src.key);
    NotLive(u.chapters, src.key);
    assert HasKey(u.chapters, src.key) by {
      var i :| 0 <= i < |s.chapters| && s.chapters[i].fact.key == src.key;
      assert u.chapters[i].fact.key == src.key;
    }
    assert !AlreadyIngested(u, src.key, tools.hash(src.text));
    hide Derive;
  }

  // ---- Extracting a summary again ----

  /** Between the two transactions of a re-extraction, no summary of that chapter and kind is current. */
  lemma TakenBackIsGone(s: Store, key: string, kind: SummaryKind, b: int)
    ensures SummedWithout(s, RetractSummaries(s, key, kind), key, b, kind)
  {
    var u := RetractSummaries(s, key, kind);
    CurrentMembers(s, b, kind);
    CurrentMembers(u, b, kind);
    hide Current;
    assert forall k :: ChapterLive(u, b, k) == ChapterLive(s, b, k);
    hide ChapterLive;
  }

  lemma AddedSummary(s: Store, m: Summary, at: int, b: int)
    requires HasKey(s.chapters, m.chapterKey)
    ensures forall h :: h in Current(Commit(s, NewSummary(m, at)), b, m.kind) <==>
                        || h in Current(s, b, m.kind)
                        || (h == Hit(|s.summaries| + 1, at, m) && at <= b
                            && (m.kind.ChapterSummary? ==> ChapterLive(s, b, m.chapterKey)))
  {
    var u := Commit(s, NewSummary(m, at));
    CurrentMembers(s, b, m.kind);
    CurrentMembers(u, b, m.kind);
    hide Current;
    assert u.chapters == s.chapters && u.summaries == s.summaries + [Row(m, at, None, false)];
    hide Commit;
    assert forall k :: ChapterLive(u, b, k) == ChapterLive(s, b, k);
    hide ChapterLive;
  }

  /**
   A re-extraction commits twice. In between, the chapter has no current summary of that kind at any bookmark;
   afterwards it has exactly the new one, at the bookmarks that show it. Other chapters keep theirs throughout.
   */
  lemma ReextractedIsCurrent(s: Store, m: Summary, at: int, b: int)
    requires HasKey(s.chapters, m.chapterKey)
    ensures var between := RetractSummaries(s, m.chapterKey, m.kind);
            var u := Commit(between, NewSummary(m, at));
            && SummedWithout(s, between, m.chapterKey, b, m.kind)
            && (forall h :: h in Current(u, b, m.kind) <==>
                            || h in Current(between, b, m.kind)
                            || (h == Hit(|s.summaries| + 1, at, m) && at <= b
                                && (m.kind.ChapterSummary? ==> ChapterLive(s, b, m.chapterKey))))
  {
    var between := RetractSummaries(s, m.chapterKey, m.kind);
    TakenBackIsGone(s, m.chapterKey, m.kind, b);
    AddedSummary(between, m, at, b);
    assert ChapterLive(between, b, m.chapterKey) == ChapterLive(s, b, m.chapterKey);
    hide Current;
    hide Commit;
  }
}
