/** The store as the object that ingestion updates in place: one committing transaction per writer. */
module MemoryDatabase {
  import opened Wrappers
  import opened StoryMemory

  /** The write was committed and answered, or refused with its error and rolled back. */
  ghost predicate Wrote<T>(before: Store, after: Store, w: Write, r: Result<T, DbError>) {
    && after == Commit(before, w)
    && r.Success? == Apply(before, w).Success?
    && (r.Failure? ==> Apply(before, w) == Failure(r.error))
  }

  /** A row is added at the end of its table under the id that is answered, or the table stays as it was. */
  ghost predicate Added<T>(before: seq<Row<T>>, after: seq<Row<T>>, row: Row<T>, r: Result<nat, DbError>) {
    if r.Success? then after == before + [row] && r.value == |after| else after == before
  }

  /** The window of row `id` is closed at `at`, and the row answered opens there with the fact. */
  ghost predicate Superseded<T>(before: seq<Row<T>>, after: seq<Row<T>>, id: nat, at: int, fact: T, answered: nat) {
    && ValidId(before, id) && answered == |after| == |before| + 1 && after[answered - 1] == Row(fact, at, None, false)
    && after[id - 1] == before[id - 1].(invalidAt := Some(at))
    && forall i :: 0 <= i < |before| && i != id - 1 ==> after[i] == before[i]
  }

  class MemoryDB {
    var pin: Option<Pin>
    var chapters: seq<Row<Chapter>>
    var raws: seq<Row<RawText>>
    var summaries: seq<Row<Summary>>
    var entities: seq<Row<Entity>>
    var aliases: seq<Row<Alias>>
    var edges: seq<Row<Edge>>
    var events: seq<Row<Event>>
    var links: seq<Link>
    var themes: seq<Row<Theme>>
    var states: seq<Row<State>>
    var chunks: seq<Row<Chunk>>

    function Contents(): Store
      reads this
    {
      Store(pin, chapters, raws, summaries, entities, aliases, edges, events, links, themes, states, chunks)
    }

    constructor (pin: Option<Pin>)
      ensures Contents() == EmptyStore(pin)
    {
      this.pin := pin;
      chapters, raws, summaries, entities, aliases := [], [], [], [], [];
      edges, events, links, themes, states, chunks := [], [], [], [], [], [];
    }

    method AddChapter(chapter: Chapter, at: int) returns (r: Result<string, DbError>)
      modifies this
      ensures Wrote(old(Contents()), Contents(), NewChapter(chapter, at), r)
      ensures r.Success? ==> r.value == chapter.key
    {
      var live := LiveChapter(chapters, chapter.key);
      if live.Some? {
        var row := chapters[live.value];
        if row.fact.contentHash == chapter.contentHash && row.revealedAt == at { return Success(chapter.key); }
        if OrdinalTaken(chapters, at, live) { return Failure(DuplicateOrdinal); }
        chapters := chapters[live.value := row.(fact := chapter, revealedAt := at)];
        return Success(chapter.key);
      }
      if HasKey(chapters, chapter.key) { return Failure(DuplicateKey); }
      if OrdinalTaken(chapters, at, None) { return Failure(DuplicateOrdinal); }
      chapters := Insert(chapters, chapter, at, None);
      return Success(chapter.key);
    }

    method AddRaw(raw: RawText, at: int) returns (r: Result<nat, DbError>)
      modifies this
      ensures Wrote(old(Contents()), Contents(), NewRaw(raw, at), r)
      ensures Added(old(raws), raws, Row(raw, at, None, false), r)
    {
      if exists i :: 0 <= i < |raws| && raws[i].fact.chapterKey == raw.chapterKey { return Failure(DuplicateKey); }
      if !HasKey(chapters, raw.chapterKey) { return Failure(ForeignKey); }
      raws := Insert(raws, raw, at, None);
      return Success(|raws|);
    }

    method AddSummary(summary: Summary, at: int) returns (r: Result<nat, DbError>)
      modifies this
      ensures Wrote(old(Contents()), Contents(), NewSummary(summary, at), r)
      ensures Added(old(summaries), summaries, Row(summary, at, None, false), r)
    {
      if !HasKey(chapters, summary.chapterKey) { return Failure(ForeignKey); }
      summaries := Insert(summaries, summary, at, None);
      return Success(|summaries|);
    }

    method AddEntity(entity: Entity, at: int) returns (id: nat)
      modifies this
      ensures Contents() == Commit(old(Contents()), NewEntity(entity, at)) && id == |entities|
    {
      entities := Insert(entities, entity, at, None);
      id := |entities|;
    }

    method AddAlias(alias: Alias, at: int) returns (r: Result<nat, DbError>)
      modifies this
      ensures Wrote(old(Contents()), Contents(), NewAlias(alias, at), r)
      ensures Added(old(aliases), aliases, Row(alias, at, None, false), r)
    {
      if !ValidId(entities, alias.entity) { return Failure(ForeignKey); }
      aliases := Insert(aliases, alias, at, None);
      return Success(|aliases|);
    }

    method AddEdge(edge: Edge, at: int, until: Option<int>) returns (r: Result<nat, DbError>)
      modifies this
      ensures Wrote(old(Contents()), Contents(), NewEdge(edge, at, until), r)
      ensures Added(old(edges), edges, Row(edge, at, until, false), r)
    {
      if !ValidId(entities, edge.src) || !ValidId(entities, edge.dst) { return Failure(ForeignKey); }
      if !WindowOk(at, until) { return Failure(BadWindow); }
      edges := Insert(edges, edge, at, until);
      return Success(|edges|);
    }

    /** Atomic supersession: the prior window closes and the replacement opens in one transaction. */
    method ReplaceEdge(id: nat, at: int, relType: string, caption: string) returns (r: Result<nat, DbError>)
      modifies this
      ensures Wrote(old(Contents()), Contents(), Write.ReplaceEdge(id, at, relType, caption), r)
      ensures r.Success? ==> ValidId(old(edges), id)
      ensures r.Success? ==>
                var prior := old(edges)[id - 1].fact;
                Superseded(old(edges), edges, id, at, Edge(prior.src, prior.dst, relType, caption), r.value)
    {
      if !ValidId(edges, id) { return Failure(NoSuchRow); }
      if at <= edges[id - 1].revealedAt { return Failure(BadWindow); }
      var prior := edges[id - 1].fact;
      edges := Close(edges, id, at);
      edges := Insert(edges, Edge(prior.src, prior.dst, relType, caption), at, None);
      return Success(|edges|);
    }

    method EndEdge(id: nat, at: int) returns (r: Result<(), DbError>)
      modifies this
      ensures Wrote(old(Contents()), Contents(), Write.EndEdge(id, at), r)
    {
      if ValidId(edges, id) {
        if at <= edges[id - 1].revealedAt { return Failure(BadWindow); }
        edges := Close(edges, id, at);
      }
      return Success(());
    }

    method AddEvent(event: Event, at: int, until: Option<int>) returns (r: Result<nat, DbError>)
      modifies this
      ensures Wrote(old(Contents()), Contents(), NewEvent(event, at, until), r)
      ensures Added(old(events), events, Row(event, at, until, false), r)
    {
      if !WindowOk(at, until) { return Failure(BadWindow); }
      events := Insert(events, event, at, until);
      return Success(|events|);
    }

    method AddLink(l: Link) returns (r: Result<(), DbError>)
      modifies this
      ensures Wrote(old(Contents()), Contents(), NewLink(l), r)
    {
      if !ValidId(events, l.event) || !ValidId(entities, l.entity) { return Failure(ForeignKey); }
      if l in links { return Failure(DuplicateKey); }
      links := links + [l];
      return Success(());
    }

    method EndEvent(id: nat, at: int) returns (r: Result<(), DbError>)
      modifies this
      ensures Wrote(old(Contents()), Contents(), Write.EndEvent(id, at), r)
    {
      if ValidId(events, id) {
        if at <= events[id - 1].revealedAt { return Failure(BadWindow); }
        events := Close(events, id, at);
      }
      return Success(());
    }

    method AddTheme(theme: Theme, at: int) returns (id: nat)
      modifies this
      ensures Contents() == Commit(old(Contents()), NewTheme(theme, at)) && id == |themes|
    {
      themes := Insert(themes, theme, at, None);
      id := |themes|;
    }

    method AddState(state: State, at: int, until: Option<int>) returns (r: Result<nat, DbError>)
      modifies this
      ensures Wrote(old(Contents()), Contents(), NewState(state, at, until), r)
      ensures Added(old(states), states, Row(state, at, until, false), r)
    {
      if !ValidId(entities, state.entity) { return Failure(ForeignKey); }
      if !WindowOk(at, until) { return Failure(BadWindow); }
      states := Insert(states, state, at, until);
      return Success(|states|);
    }

    /** Atomic, gap-free state transition. */
    method ReplaceState(id: nat, at: int, note: string) returns (r: Result<nat, DbError>)
      modifies this
      ensures Wrote(old(Contents()), Contents(), Write.ReplaceState(id, at, note), r)
      ensures r.Success? ==> ValidId(old(states), id)
      ensures r.Success? ==> Superseded(old(states), states, id, at, State(old(states)[id - 1].fact.entity, note),
                                        r.value)
    {
      if !ValidId(states, id) { return Failure(NoSuchRow); }
      if at <= states[id - 1].revealedAt { return Failure(BadWindow); }
      var prior := states[id - 1].fact;
      states := Close(states, id, at);
      states := Insert(states, State(prior.entity, note), at, None);
      return Success(|states|);
    }

    method AddChunk(chunk: Chunk, at: int) returns (r: Result<nat, DbError>)
      modifies this
      ensures Wrote(old(Contents()), Contents(), NewChunk(chunk, at), r)
      ensures exists model :: Added(old(chunks), chunks, Row(chunk.(model := model), at, None, false), r)
      ensures r.Success? && pin.Some? ==>
                chunks[r.value - 1].fact.model == Some(pin.value.model) && |chunk.vec| == pin.value.dim
    {
      var model := chunk.model;
      if pin.Some? {
        if model.None? { model := Some(pin.value.model); }
        if model != Some(pin.value.model) || |chunk.vec| != pin.value.dim {
          assert Added(chunks, chunks, Row(chunk, at, None, false), Failure(WrongEmbedding));
          assert chunk.(model := chunk.model) == chunk;
          return Failure(WrongEmbedding);
        }
      }
      if !HasKey(chapters, chunk.chapterKey) {
        assert Added(chunks, chunks, Row(chunk.(model := model), at, None, false), Failure(ForeignKey));
        return Failure(ForeignKey);
      }
      chunks := Insert(chunks, chunk.(model := model), at, None);
      assert Added(old(chunks), chunks, Row(chunk.(model := model), at, None, false), Success(|chunks|));
      return Success(|chunks|);
    }

    method RemoveChapter(key: string)
      modifies this
      ensures Contents() == RetractChapter(old(Contents()), key)
    {
      chapters := Retracted(chapters, (c: Chapter) => c.key == key);
      raws := Retracted(raws, (r: RawText) => r.chapterKey == key);
      summaries := Retracted(summaries, (m: Summary) => m.chapterKey == key);
      chunks := Retracted(chunks, (c: Chunk) => c.chapterKey == key);
    }

    /** Takes back the summaries of one kind of a chapter: a transaction of its own. */
    method TakeBackSummaries(key: string, kind: SummaryKind)
      modifies this
      ensures Contents() == RetractSummaries(old(Contents()), key, kind)
    {
      summaries := Retracted(summaries, (m: Summary) => m.chapterKey == key && m.kind == kind);
    }

    /** Two transactions: the old summaries are taken back, then the new one is added, if its chapter exists. */
    method ReextractSummary(summary: Summary, at: int) returns (r: Result<nat, DbError>)
      modifies this
      ensures var between := RetractSummaries(old(Contents()), summary.chapterKey, summary.kind);
              && Wrote(between, Contents(), NewSummary(summary, at), r)
              && Added(between.summaries, summaries, Row(summary, at, None, false), r)
    {
      TakeBackSummaries(summary.chapterKey, summary.kind);
      r := AddSummary(summary, at);
    }
  }
}
