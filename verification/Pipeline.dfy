/**
 The ingestion pipeline on the store object: a chapter's extraction is resolved and written row by row.
 The method is proved equal to `Ingestion.Ingest` on every store whose foreign keys hold.
 */
module Pipeline {
  import opened Wrappers
  import opened StoryMemory
  import opened BookmarkView
  import opened Resolution
  import opened Ingestion
  import StoryTime
  import StoreInvariants
  import IngestionTheorems
  import IngestContents
  import IngestRows
  import opened MemoryDatabase

  /** The part of the engine's foreign keys that ingestion leans on: cast links name stored events. */
  predicate LinksHold(s: Store) {
    forall i :: 0 <= i < |s.links| ==> ValidId(s.events, s.links[i].event)
  }

  /** The ids in hand are ids of stored entities. */
  ghost predicate IdsHold(p: Progress) {
    && LinksHold(p.store)
    && (forall k :: k in p.names ==> ValidId(p.store.entities, p.names[k]))
    && (forall j :: j in p.created ==> ValidId(p.store.entities, p.created[j]))
  }

  // ---- Mentions ----

  method StoreForms(db: MemoryDB, n: Names, known: map<string, nat>, forms: seq<string>, id: nat, at: int)
    requires ValidId(db.entities, id)
    modifies db
    ensures db.Contents() == AddForms(n, old(db.Contents()), known, forms, |forms|, id, at)
    ensures db.entities == old(db.entities) && db.events == old(db.events) && db.links == old(db.links)
  {
    var i := 0;
    while i < |forms|
      invariant 0 <= i <= |forms|
      invariant db.Contents() == AddForms(n, old(db.Contents()), known, forms, i, id, at)
      invariant db.entities == old(db.entities) && db.events == old(db.events) && db.links == old(db.links)
    {
      if n.norm(forms[i]) !in known {
        var r := db.AddAlias(Alias(id, forms[i]), at);
        assert r.Success?;
      }
      i := i + 1;
    }
  }

  method StoreState(db: MemoryDB, id: nat, state: Option<string>, at: int)
    requires ValidId(db.entities, id)
    modifies db
    ensures db.Contents() == AdvanceState(old(db.Contents()), id, state, at)
    ensures db.entities == old(db.entities) && db.events == old(db.events) && db.links == old(db.links)
  {
    if SaysState(state) {
      var cur := CurrentState(db.Contents(), at, id);
      if cur.Some? && cur.value.revealedAt < at {
        var r := db.ReplaceState(cur.value.id, at, state.value);
        assert r.Success? by { CurrentStateIsStored(old(db.Contents()), at, id); }
      } else if cur.None? {
        var r := db.AddState(State(id, state.value), at, None);
        assert r.Success?;
      }
    }
  }

  lemma CurrentStateIsStored(s: Store, b: int, entity: nat)
    ensures var cur := CurrentState(s, b, entity);
            cur.Some? ==>
              ValidId(s.states, cur.value.id) && s.states[cur.value.id - 1].revealedAt == cur.value.revealedAt
  {
    var hits := Select(s.states, b, StateOf(s, b, entity));
    StoryTime.SelectMembers(s.states, b, StateOf(s, b, entity));
    StoryTime.OrderByMembers(hits, Newest());
    var cur := CurrentState(s, b, entity);
    if cur.Some? {
      assert cur.value in OrderBy(hits, Newest());
      assert cur.value in hits;
    }
  }

  method NameForms(n: Names, names: map<string, nat>, forms: seq<string>, id: nat) returns (out: map<string, nat>)
    ensures out == WithForms(n, names, forms, |forms|, id)
  {
    out := names;
    var i := 0;
    while i < |forms|
      invariant 0 <= i <= |forms| && out == WithForms(n, names, forms, i, id)
    {
      var key := n.norm(forms[i]);
      if key !in out { out := out[key := id]; }
      i := i + 1;
    }
  }

  lemma {:induction false} FormsInHand(n: Names, names: map<string, nat>, forms: seq<string>, count: nat, id: nat)
    requires count <= |forms|
    ensures forall k :: k in WithForms(n, names, forms, count, id) ==>
              WithForms(n, names, forms, count, id)[k] == id
                || (k in names && WithForms(n, names, forms, count, id)[k] == names[k])
  {
    if count > 0 { FormsInHand(n, names, forms, count - 1, id); }
  }

  /** One pass of the loop over mentions: the id it resolved to is taken from the roster, or created. */
  method StoreMention(db: MemoryDB, n: Names, p: Progress, i: nat, m: Mention, d: Decision, at: int)
    returns (q: Progress)
    requires db.Contents() == p.store && IdsHold(p)
    requires d.Merge? ==> ValidId(p.store.entities, Target(p, d.ref))
    requires d.Merge? && d.ref.Pending? ==> d.ref.index in p.created
    modifies db
    ensures q == StepMention(n, p, i, m, d, at) && db.Contents() == q.store && IdsHold(q)
  {
    hide AddForms;
    hide WithForms;
    var id, created, merges, creates := 0, p.created, p.merges, p.creates;
    if d.Merge? {
      id := match d.ref { case Known(known) => known case Pending(j) => p.created[j] };
      merges := merges + 1;
      StoreForms(db, n, p.names, m.aliases, id, at);
      StoreState(db, id, m.state, at);
    } else {
      id := StoreNewEntity(db, n, m, at);
      created := created[i := id];
      creates := creates + 1;
    }
    var names := NameForms(n, p.names[n.norm(m.name) := id], m.aliases, id);
    FormsInHand(n, p.names[n.norm(m.name) := id], m.aliases, |m.aliases|, id);
    q := Progress(db.Contents(), names, created, p.resolved + [id], merges, creates);
  }

  method StoreNewEntity(db: MemoryDB, n: Names, m: Mention, at: int) returns (id: nat)
    modifies db
    ensures id == |db.entities| == |old(db.entities)| + 1
    ensures db.events == old(db.events) && db.links == old(db.links)
    ensures var begun := Commit(old(db.Contents()), NewEntity(Entity(m.name, m.kind), at));
            db.Contents() == FirstState(AddForms(n, begun, map[], m.aliases, |m.aliases|, |begun.entities|, at), id,
                                        m.state, at)
  {
    id := db.AddEntity(Entity(m.name, m.kind), at);
    StoreForms(db, n, map[], m.aliases, id, at);
    if SaysState(m.state) {
      var r := db.AddState(State(id, m.state.value), at, None);
      assert r.Success?;
    }
  }

  method StoreMentions(db: MemoryDB, n: Names, start: Progress, ms: seq<Mention>, ds: seq<Decision>,
                       ghost roster: seq<RosterEntry>, at: int) returns (p: Progress)
    requires |ms| == |ds| && db.Contents() == start.store && IdsHold(start)
    requires IngestionTheorems.RosterOk(roster, start.store) && AllReferBack(roster, ds)
    modifies db
    ensures p == Mentions(n, start, ms, ds, |ms|, at) && db.Contents() == p.store && IdsHold(p)
    ensures StoreInvariants.Built(start.store, at) && start == Start(n, start.store, roster) ==>
              IngestRows.Stored(n, start.store, roster, ms, ds, |ms|, p, at)
  {
    hide StepMention;
    hide IngestRows.Stored;
    if StoreInvariants.Built(start.store, at) && start == Start(n, start.store, roster) {
      IngestRows.MentionsAreStored(n, start.store, roster, ms, ds, |ms|, at);
    }
    p := start;
    var i := 0;
    while i < |ms|
      invariant 0 <= i <= |ms| && p == Mentions(n, start, ms, ds, i, at)
      invariant db.Contents() == p.store && IdsHold(p) && |start.store.entities| <= |p.store.entities|
      invariant IngestionTheorems.Tracking(p, ds, i)
    {
      MergeInHand(start, p, roster, ds, i);
      IngestionTheorems.TrackingSteps(n, p, ms, ds, i, at);
      IngestionTheorems.MentionKeepsChapters(n, p, i, ms[i], ds[i], at);
      MentionOnlyAdds(n, p, i, ms[i], ds[i], at);
      p := StoreMention(db, n, p, i, ms[i], ds[i], at);
      i := i + 1;
    }
  }

  lemma MergeInHand(start: Progress, p: Progress, roster: seq<RosterEntry>, ds: seq<Decision>, i: nat)
    requires i < |ds| && AllReferBack(roster, ds) && IngestionTheorems.RosterOk(roster, start.store)
    requires IdsHold(p) && |start.store.entities| <= |p.store.entities| && IngestionTheorems.Tracking(p, ds, i)
    ensures ds[i].Merge? ==> ValidId(p.store.entities, Target(p, ds[i].ref))
    ensures ds[i].Merge? && ds[i].ref.Pending? ==> ds[i].ref.index in p.created
  {
    if ds[i].Merge? { assert RefersBack(ds[i].ref, roster, ds, i); }
  }

  lemma MentionOnlyAdds(n: Names, p: Progress, i: nat, m: Mention, d: Decision, at: int)
    ensures StepMention(n, p, i, m, d, at).creates >= p.creates
  {
  }

  // ---- Relations, events and themes ----

  method StoreRelations(db: MemoryDB, n: Names, names: map<string, nat>, rels: seq<Relation>, at: int)
    returns (unresolved: nat)
    requires forall k :: k in names ==> ValidId(db.entities, names[k])
    modifies db
    ensures (db.Contents(), unresolved) == AddRelations(n, old(db.Contents()), names, rels, |rels|, at)
    ensures db.entities == old(db.entities) && db.events == old(db.events) && db.links == old(db.links)
  {
    unresolved := 0;
    var i := 0;
    while i < |rels|
      invariant 0 <= i <= |rels|
      invariant (db.Contents(), unresolved) == AddRelations(n, old(db.Contents()), names, rels, i, at)
      invariant db.entities == old(db.entities) && db.events == old(db.events) && db.links == old(db.links)
    {
      var src, dst := Lookup(n, names, rels[i].src), Lookup(n, names, rels[i].dst);
      if src.Some? && dst.Some? {
        var r := db.AddEdge(Edge(src.value, dst.value, rels[i].relType, rels[i].caption), at, None);
        assert r.Success?;
      } else {
        unresolved := unresolved + 1;
      }
      i := i + 1;
    }
  }

  method ResolveCast(n: Names, names: map<string, nat>, forms: seq<string>) returns (cast: seq<nat>, dropped: nat)
    ensures (cast, dropped) == Cast(n, names, forms, |forms|)
  {
    cast, dropped := [], 0;
    var i := 0;
    while i < |forms|
      invariant 0 <= i <= |forms| && (cast, dropped) == Cast(n, names, forms, i)
    {
      var id := Lookup(n, names, forms[i]);
      if id.None? { dropped := dropped + 1; }
      else if id.value !in cast { cast := cast + [id.value]; }
      i := i + 1;
    }
  }

  /** Participants are deduplicated, so no link of a new event is refused. */
  method StoreBeat(db: MemoryDB, n: Names, names: map<string, nat>, beat: Beat, at: int) returns (dropped: nat)
    requires LinksHold(db.Contents())
    requires forall k :: k in names ==> ValidId(db.entities, names[k])
    modifies db
    ensures (db.Contents(), dropped) == AddBeat(n, old(db.Contents()), names, beat, at)
    ensures db.entities == old(db.entities) && LinksHold(db.Contents())
  {
    var cast;
    cast, dropped := ResolveCast(n, names, beat.participants);
    IngestionTheorems.CastIsDistinct(n, names, beat.participants, |beat.participants|, db.Contents());
    var event := db.AddEvent(Event(beat.summary, 1), at, None);
    StoreLinks(db, event.value, cast);
  }

  method StoreLinks(db: MemoryDB, event: nat, cast: seq<nat>)
    requires LinksHold(db.Contents()) && ValidId(db.events, event)
    requires IngestionTheorems.CastLinked(db.links, event, cast, 0)
    requires IngestionTheorems.Distinct(cast) && IngestionTheorems.AllEntities(cast, db.Contents())
    modifies db
    ensures db.Contents() == AddLinks(old(db.Contents()), event, cast, |cast|)
    ensures db.entities == old(db.entities) && LinksHold(db.Contents())
  {
    var i := 0;
    while i < |cast|
      invariant 0 <= i <= |cast|
      invariant db.Contents() == AddLinks(old(db.Contents()), event, cast, i)
      invariant db.entities == old(db.entities) && db.events == old(db.events) && LinksHold(db.Contents())
      invariant IngestionTheorems.CastLinked(db.links, event, cast, i)
    {
      IngestionTheorems.LinkedMore(db.links, event, cast, i);
      var r := db.AddLink(Link(event, cast[i]));
      assert r.Success?;
      i := i + 1;
    }
  }

  method StoreBeats(db: MemoryDB, n: Names, names: map<string, nat>, beats: seq<Beat>, at: int) returns (dropped: nat)
    requires LinksHold(db.Contents())
    requires forall k :: k in names ==> ValidId(db.entities, names[k])
    modifies db
    ensures (db.Contents(), dropped) == AddBeats(n, old(db.Contents()), names, beats, |beats|, at)
    ensures LinksHold(db.Contents())
  {
    dropped := 0;
    var i := 0;
    while i < |beats|
      invariant 0 <= i <= |beats|
      invariant (db.Contents(), dropped) == AddBeats(n, old(db.Contents()), names, beats, i, at)
      invariant db.entities == old(db.entities) && LinksHold(db.Contents())
    {
      var more := StoreBeat(db, n, names, beats[i], at);
      dropped := dropped + more;
      i := i + 1;
    }
  }

  method StoreThemes(db: MemoryDB, themes: seq<Theme>, at: int)
    requires LinksHold(db.Contents())
    modifies db
    ensures db.Contents() == AddThemes(old(db.Contents()), themes, |themes|, at)
    ensures LinksHold(db.Contents())
  {
    var i := 0;
    while i < |themes|
      invariant 0 <= i <= |themes| && db.Contents() == AddThemes(old(db.Contents()), themes, i, at)
      invariant LinksHold(db.Contents())
    {
      var id := db.AddTheme(themes[i], at);
      i := i + 1;
    }
  }

  // ---- One chapter ----

  method BuildNames(n: Names, roster: seq<RosterEntry>) returns (names: map<string, nat>)
    ensures names == RosterNames(n, roster, |roster|)
  {
    names := map[];
    var i := 0;
    while i < |roster|
      invariant 0 <= i <= |roster| && names == RosterNames(n, roster, i)
    {
      names := names[n.norm(roster[i].name) := IdOf(roster[i].ref)];
      names := NameForms(n, names, roster[i].aliases, IdOf(roster[i].ref));
      i := i + 1;
    }
  }

  method DeriveRows(db: MemoryDB, tools: Tools, src: Source, ex: Extraction) returns (report: Report)
    requires LinksHold(db.Contents())
    modifies db
    ensures (db.Contents(), report) == Derive(tools, old(db.Contents()), src, ex)
    ensures LinksHold(db.Contents())
  {
    var n, at := tools.names, src.ordinal;
    var roster := RosterBefore(db.Contents(), at);
    var ds := ResolveChapter(n, tools.embedder, ex.mentions, roster);
    IngestionTheorems.RosterIsOk(db.Contents(), if at - 1 > 0 then at - 1 else 0);
    IngestionTheorems.RosterNamesOk(n, roster, |roster|, db.Contents());
    MergesReferBack(n, tools.embedder, ex.mentions, |ex.mentions|, roster);
    var names := BuildNames(n, roster);
    var p := StoreMentions(db, n, Progress(db.Contents(), names, map[], [], 0, 0), ex.mentions, ds, roster, at);
    var unresolved := StoreRelations(db, n, p.names, ex.relations, at);
    var dropped := StoreBeats(db, n, p.names, ex.beats, at);
    StoreThemes(db, ex.themes, at);
    report := Report(p.merges, p.creates, p.resolved, unresolved, dropped);
  }

  method OpenRows(db: MemoryDB, tools: Tools, src: Source, ex: Extraction) returns (error: Option<DbError>)
    requires LinksHold(db.Contents())
    modifies db
    ensures (db.Contents(), error) == OpenChapter(tools, old(db.Contents()), src, ex)
    ensures LinksHold(db.Contents())
  {
    var chapter := db.AddChapter(Chapter(src.key, src.title, tools.hash(src.text)), src.ordinal);
    if chapter.Failure? { return Some(chapter.error); }
    if src.text != "" {
      var raw := db.AddRaw(RawText(src.key, src.text), src.ordinal);
      if raw.Failure? { return Some(raw.error); }
    }
    var summary := db.AddSummary(Summary(src.key, ChapterSummary, ex.summary), src.ordinal);
    return None;
  }

  /** The chapter's turn has come: a sound store of earlier chapters, without its key and ordinal. */
  ghost predicate Awaits(s: Store, src: Source) {
    && StoreInvariants.Built(s, src.ordinal) && IngestContents.StatesBefore(s, src.ordinal)
    && !HasKey(s.chapters, src.key) && !OrdinalTaken(s.chapters, src.ordinal, None)
  }

  /**
   A raised outcome is an exception that escapes the run, with what had been committed by then. A chapter whose
   turn has come is stored as its extraction says.
   */
  method IngestChapter(db: MemoryDB, tools: Tools, src: Source, ex: Extraction) returns (out: Outcome)
    requires LinksHold(db.Contents())
    modifies db
    ensures out == Ingest(tools, old(db.Contents()), src, ex) && db.Contents() == out.store
    ensures LinksHold(db.Contents())
    ensures Awaits(old(db.Contents()), src) ==> IngestContents.Reports(tools, old(db.Contents()), out, src, ex)
  {
    hide OpenChapter;
    hide Derive;
    hide IngestContents.Reports;
    if Awaits(db.Contents(), src) { IngestContents.ChapterSays(tools, db.Contents(), src, ex); }
    hide Awaits;
    if AlreadyIngested(db.Contents(), src.key, tools.hash(src.text)) { return Skipped(db.Contents()); }
    var error := OpenRows(db, tools, src, ex);
    if error.Some? { return Raised(db.Contents(), error.value); }
    var report := DeriveRows(db, tools, src, ex);
    if tools.chunkEmbed.Some? && src.text != "" {
      var chunk := db.AddChunk(ChunkOf(tools.chunkEmbed.value, src), src.ordinal);
      if chunk.Failure? { return Raised(db.Contents(), chunk.error); }
    }
    return Ingested(db.Contents(), report);
  }
}
