/**
 The promises of an in-order ingestion run: no spoilers at any bookmark, gap-free state timelines,
 references that never run ahead, and nothing counted twice or lost.
 */
module IngestionTheorems {
  import opened Wrappers
  import opened StoryMemory
  import opened BookmarkView
  import opened StoryTime
  import opened StoreInvariants
  import opened Resolution
  import opened Ingestion

  // ---- Every stage of an ingestion is a chain of fitting writes ----

  /** `t` is a sound store that differs from `s` only by what chapter `at` reveals. */
  ghost predicate Step(s: Store, t: Store, at: int) {
    Built(t, at) && Extends(s, t, at - 1)
  }

  ghost predicate NamesOk(names: map<string, nat>, s: Store) {
    forall k :: k in names ==> ValidId(s.entities, names[k])
  }

  lemma StepsChain(s: Store, t: Store, u: Store, at: int)
    requires Step(s, t, at) && Step(t, u, at)
    ensures Step(s, u, at)
  {
    ExtendsTransitive(s, t, u, at - 1);
  }

  lemma StepHere(s: Store, at: int)
    requires Built(s, at)
    ensures Step(s, s, at)
  {
    StoreGrows(s, at - 1);
  }

  lemma WriteSteps(s: Store, t: Store, w: Write, at: int)
    requires Step(s, t, at) && Fits(t, w, at)
    ensures Step(s, Commit(t, w), at)
  {
    FittingWrite(t, w, at);
    ExtendsTransitive(s, t, Commit(t, w), at - 1);
  }

  lemma {:induction false} FormsStep(n: Names, s: Store, known: map<string, nat>, forms: seq<string>, count: nat,
                                     id: nat, at: int)
    requires count <= |forms| && Built(s, at) && ValidId(s.entities, id)
    ensures var t := AddForms(n, s, known, forms, count, id, at);
            Step(s, t, at) && t == s.(aliases := t.aliases)
  {
    StepHere(s, at);
    if count > 0 {
      FormsStep(n, s, known, forms, count - 1, id, at);
      var prior := AddForms(n, s, known, forms, count - 1, id, at);
      WriteSteps(s, prior, NewAlias(Alias(id, forms[count - 1]), at), at);
    }
  }

  lemma AdvanceSteps(s: Store, t: Store, id: nat, state: Option<string>, at: int)
    requires Step(s, t, at) && ValidId(t.entities, id)
    ensures var u := AdvanceState(t, id, state, at);
            Step(s, u, at) && u == t.(states := u.states)
  {
    if SaysState(state) {
      assert EntityVisible(t, at, id);
      CurrentStateIsTheState(t, id, at);
      var cur := CurrentState(t, at, id);
      if cur.Some? && cur.value.revealedAt < at {
        assert Shows(t, id, at, cur.value.id - 1);
        WriteSteps(s, t, ReplaceState(cur.value.id, at, state.value), at);
      } else if cur.None? {
        WriteSteps(s, t, NewState(State(id, state.value), at, None), at);
      }
    }
  }

  lemma FirstStateSteps(s: Store, t: Store, id: nat, state: Option<string>, at: int)
    requires Step(s, t, at) && ValidId(t.entities, id)
    requires forall i :: 0 <= i < |t.states| ==> t.states[i].fact.entity != id
    ensures var u := FirstState(t, id, state, at);
            Step(s, u, at) && u == t.(states := u.states)
  {
    if SaysState(state) { WriteSteps(s, t, NewState(State(id, state.value), at, None), at); }
  }

  lemma {:induction false} FormNamesOk(n: Names, names: map<string, nat>, forms: seq<string>, count: nat, id: nat,
                                       s: Store)
    requires count <= |forms| && NamesOk(names, s) && ValidId(s.entities, id)
    ensures NamesOk(WithForms(n, names, forms, count, id), s)
  {
    if count > 0 { FormNamesOk(n, names, forms, count - 1, id, s); }
  }

  /** The loop over mentions: a sound store, and only ids of its entities in hand. */
  ghost predicate Sound(s: Store, p: Progress, at: int) {
    && Step(s, p.store, at) && NamesOk(p.names, p.store)
    && (forall j :: j in p.created ==> ValidId(p.store.entities, p.created[j]))
  }

  lemma MergeSteps(n: Names, s: Store, p: Progress, m: Mention, id: nat, at: int)
    requires Sound(s, p, at) && ValidId(p.store.entities, id)
    ensures Sound(s, MergeMention(n, p, m, id, at), at)
  {
    var aliased := AddForms(n, p.store, p.names, m.aliases, |m.aliases|, id, at);
    FormsStep(n, p.store, p.names, m.aliases, |m.aliases|, id, at);
    StepsChain(s, p.store, aliased, at);
    AdvanceSteps(s, aliased, id, m.state, at);
    var q := MergeMention(n, p, m, id, at);
    FormNamesOk(n, p.names[n.norm(m.name) := id], m.aliases, |m.aliases|, id, q.store);
  }

  lemma CreateSteps(n: Names, s: Store, p: Progress, i: nat, m: Mention, at: int)
    requires Sound(s, p, at)
    ensures Sound(s, CreateMention(n, p, i, m, at), at)
  {
    hide AddForms;
    hide Extends;
    hide WithForms;
    var w := NewEntity(Entity(m.name, m.kind), at);
    var begun := Commit(p.store, w);
    var id := |begun.entities|;
    WriteSteps(s, p.store, w, at);
    forall k | 0 <= k < |p.store.states| ensures p.store.states[k].fact.entity != id {
      assert Met(p.store, p.store.states[k].fact.entity, p.store.states[k].revealedAt);
    }
    var aliased := AddForms(n, begun, map[], m.aliases, |m.aliases|, id, at);
    FormsStep(n, begun, map[], m.aliases, |m.aliases|, id, at);
    StepsChain(s, begun, aliased, at);
    FirstStateSteps(s, aliased, id, m.state, at);
    var q := CreateMention(n, p, i, m, at);
    assert NamesOk(p.names[n.norm(m.name) := id], q.store);
    FormNamesOk(n, p.names[n.norm(m.name) := id], m.aliases, |m.aliases|, id, q.store);
  }

  /** Roster entries carry ids of the store they were read from. */
  ghost predicate RosterOk(roster: seq<RosterEntry>, s: Store) {
    forall e :: e in roster ==> e.ref.Known? && ValidId(s.entities, e.ref.id)
  }

  lemma RosterIsOk(s: Store, b: int)
    ensures RosterOk(Roster(s, b), s)
  {
    hide RosterOf;
    forall kind ensures RosterOk(RosterOf(s, b, kind), s) { RosterOfIsOk(s, b, kind); }
  }

  lemma RosterOfIsOk(s: Store, b: int, kind: EntityKind)
    ensures RosterOk(RosterOf(s, b, kind), s)
  {
    hide OrderBy;
    hide Select;
    var hits := Select(s.entities, b, OfKind(kind));
    SelectMembers(s.entities, b, OfKind(kind));
    OrderByMembers(hits, Oldest());
    forall e | e in RosterOf(s, b, kind) ensures e.ref.Known? && ValidId(s.entities, e.ref.id) {
      var k :| 0 <= k < |EntitiesOfType(s, b, kind)| && RosterOf(s, b, kind)[k] == e;
      assert EntitiesOfType(s, b, kind)[k] in hits;
    }
  }

  lemma {:induction false} RosterNamesOk(n: Names, roster: seq<RosterEntry>, count: nat, s: Store)
    requires count <= |roster| && RosterOk(roster, s)
    ensures NamesOk(RosterNames(n, roster, count), s)
  {
    if count > 0 {
      RosterNamesOk(n, roster, count - 1, s);
      var e := roster[count - 1];
      assert e in roster;
      FormNamesOk(n, RosterNames(n, roster, count - 1)[n.norm(e.name) := IdOf(e.ref)], e.aliases, |e.aliases|,
                  IdOf(e.ref), s);
    }
  }

  /** Sound progress that remembers an id for every creation so far. */
  ghost predicate Tracking(p: Progress, ds: seq<Decision>, count: nat) {
    forall j: nat :: j < count && j < |ds| && ds[j].Create? ==> j in p.created
  }

  /** The id a merge resolves to is always an entity: the lookup of a pending id never fails. */
  lemma TargetIsEntity(s: Store, p: Progress, roster: seq<RosterEntry>, ds: seq<Decision>, i: nat, at: int)
    requires Sound(s, p, at) && Tracking(p, ds, i) && RosterOk(roster, s) && AllReferBack(roster, ds)
    requires i < |ds| && ds[i].Merge?
    ensures ds[i].ref.Pending? ==> ds[i].ref.index in p.created
    ensures ValidId(p.store.entities, Target(p, ds[i].ref))
  {
    assert RefersBack(ds[i].ref, roster, ds, i);
  }

  lemma MentionSteps(n: Names, s: Store, p: Progress, ms: seq<Mention>, ds: seq<Decision>, i: nat,
                     roster: seq<RosterEntry>, at: int)
    requires i < |ms| == |ds| && Sound(s, p, at) && RosterOk(roster, s) && AllReferBack(roster, ds)
    requires Tracking(p, ds, i)
    ensures Sound(s, StepMention(n, p, i, ms[i], ds[i], at), at)
  {
    match ds[i]
    case Merge(ref, _) =>
      TargetIsEntity(s, p, roster, ds, i, at);
      MergeSteps(n, s, p, ms[i], Target(p, ref), at);
    case Create(_) =>
      CreateSteps(n, s, p, i, ms[i], at);
  }

  lemma TrackingSteps(n: Names, p: Progress, ms: seq<Mention>, ds: seq<Decision>, i: nat, at: int)
    requires i < |ms| == |ds| && Tracking(p, ds, i)
    ensures Tracking(StepMention(n, p, i, ms[i], ds[i], at), ds, i + 1)
  {
  }

  lemma {:induction false} MentionsStep(n: Names, s: Store, p: Progress, ms: seq<Mention>, ds: seq<Decision>,
                                        count: nat,
                                        roster: seq<RosterEntry>, at: int)
    requires count <= |ms| == |ds| && Sound(s, p, at) && RosterOk(roster, s) && AllReferBack(roster, ds)
    ensures Sound(s, Mentions(n, p, ms, ds, count, at), at)
    ensures Tracking(Mentions(n, p, ms, ds, count, at), ds, count)
  {
    hide StepMention;
    hide Step;
    if count > 0 {
      MentionsStep(n, s, p, ms, ds, count - 1, roster, at);
      MentionSteps(n, s, Mentions(n, p, ms, ds, count - 1, at), ms, ds, count - 1, roster, at);
      TrackingSteps(n, Mentions(n, p, ms, ds, count - 1, at), ms, ds, count - 1, at);
    }
  }

  lemma {:induction false} RelationsStep(n: Names, s: Store, names: map<string, nat>, rels: seq<Relation>, count: nat,
                                         at: int)
    requires count <= |rels| && Built(s, at) && NamesOk(names, s)
    ensures var t := AddRelations(n, s, names, rels, count, at).0;
            Step(s, t, at) && t == s.(edges := t.edges)
  {
    StepHere(s, at);
    if count > 0 {
      RelationsStep(n, s, names, rels, count - 1, at);
      var prior := AddRelations(n, s, names, rels, count - 1, at).0;
      var r := rels[count - 1];
      var src, dst := Lookup(n, names, r.src), Lookup(n, names, r.dst);
      if src.Some? && dst.Some? {
        WriteSteps(s, prior, NewEdge(Edge(src.value, dst.value, r.relType, r.caption), at, None), at);
      }
    }
  }

  ghost predicate Distinct(cast: seq<nat>) {
    forall i, j :: 0 <= i < j < |cast| ==> cast[i] != cast[j]
  }

  ghost predicate AllEntities(cast: seq<nat>, s: Store) {
    forall i :: 0 <= i < |cast| ==> ValidId(s.entities, cast[i])
  }

  lemma {:induction false} CastIsDistinct(n: Names, names: map<string, nat>, forms: seq<string>, count: nat, s: Store)
    requires count <= |forms| && NamesOk(names, s)
    ensures Distinct(Cast(n, names, forms, count).0) && AllEntities(Cast(n, names, forms, count).0, s)
  {
    if count > 0 { CastIsDistinct(n, names, forms, count - 1, s); }
  }

  /** `event` has links to the first `count` of the cast only. */
  ghost predicate CastLinked(links: seq<Link>, event: nat, cast: seq<nat>, count: nat) {
    forall l :: l in links && l.event == event ==> exists j :: 0 <= j < count && j < |cast| && cast[j] == l.entity
  }

  lemma {:induction false} LinksStep(s: Store, event: nat, cast: seq<nat>, count: nat, at: int)
    requires count <= |cast| && Built(s, at)
    requires ValidId(s.events, event) && s.events[event - 1].revealedAt == at
    requires CastLinked(s.links, event, cast, 0)
    requires Distinct(cast) && AllEntities(cast, s)
    ensures var t := AddLinks(s, event, cast, count);
            Step(s, t, at) && t == s.(links := t.links)
    ensures CastLinked(AddLinks(s, event, cast, count).links, event, cast, count)
    ensures |AddLinks(s, event, cast, count).links| == |s.links| + count
  {
    hide Built;
    hide Extends;
    StepHere(s, at);
    if count > 0 {
      LinksStep(s, event, cast, count - 1, at);
      var prior := AddLinks(s, event, cast, count - 1);
      var l := Link(event, cast[count - 1]);
      assert l !in prior.links;
      assert Fits(prior, NewLink(l), at);
      FittingWriteSucceeds(prior, NewLink(l), at);
      assert AddLinks(s, event, cast, count).links == prior.links + [l];
      WriteSteps(s, prior, NewLink(l), at);
      LinkedMore(prior.links, event, cast, count - 1);
    }
  }

  lemma LinkedMore(links: seq<Link>, event: nat, cast: seq<nat>, count: nat)
    requires count < |cast| && CastLinked(links, event, cast, count)
    ensures CastLinked(links + [Link(event, cast[count])], event, cast, count + 1)
  {
  }

  lemma NewEventUnlinked(s: Store, at: int, w: Write, cast: seq<nat>)
    requires Built(s, at) && w.NewEvent? && Fits(s, w, at)
    ensures var begun := Commit(s, w);
            ValidId(begun.events, |begun.events|) && begun.events[|begun.events| - 1].revealedAt == at
            && CastLinked(begun.links, |begun.events|, cast, 0) && begun == s.(events := begun.events)
            && |begun.events| == |s.events| + 1
  {
    var begun := Commit(s, w);
    forall l | l in begun.links ensures l.event != |begun.events| {
      var i :| 0 <= i < |s.links| && s.links[i] == l;
      assert ValidId(s.events, s.links[i].event);
    }
  }

  lemma BeatSteps(n: Names, s: Store, names: map<string, nat>, beat: Beat, at: int)
    requires Built(s, at) && NamesOk(names, s)
    ensures var t := AddBeat(n, s, names, beat, at).0;
            && Step(s, t, at) && t == s.(events := t.events, links := t.links)
            && |t.events| == |s.events| + 1
            && |t.links| == |s.links| + |Cast(n, names, beat.participants, |beat.participants|).0|
  {
    var cast := Cast(n, names, beat.participants, |beat.participants|).0;
    var w := NewEvent(Event(beat.summary, 1), at, None);
    var begun := Commit(s, w);
    StepHere(s, at);
    WriteSteps(s, s, w, at);
    NewEventUnlinked(s, at, w, cast);
    CastIsDistinct(n, names, beat.participants, |beat.participants|, begun);
    LinksStep(begun, |begun.events|, cast, |cast|, at);
    StepsChain(s, begun, AddLinks(begun, |begun.events|, cast, |cast|), at);
  }

  lemma {:induction false} BeatsStep(n: Names, s: Store, names: map<string, nat>, beats: seq<Beat>, count: nat, at: int)
    requires count <= |beats| && Built(s, at) && NamesOk(names, s)
    ensures var t := AddBeats(n, s, names, beats, count, at).0;
            Step(s, t, at) && t == s.(events := t.events, links := t.links) && |t.events| == |s.events| + count
  {
    StepHere(s, at);
    if count > 0 {
      BeatsStep(n, s, names, beats, count - 1, at);
      var prior := AddBeats(n, s, names, beats, count - 1, at).0;
      BeatSteps(n, prior, names, beats[count - 1], at);
      StepsChain(s, prior, AddBeat(n, prior, names, beats[count - 1], at).0, at);
    }
  }

  lemma {:induction false} ThemesStep(s: Store, themes: seq<Theme>, count: nat, at: int)
    requires count <= |themes| && Built(s, at)
    ensures var t := AddThemes(s, themes, count, at); Step(s, t, at) && t == s.(themes := t.themes)
  {
    StepHere(s, at);
    if count > 0 {
      ThemesStep(s, themes, count - 1, at);
      WriteSteps(s, AddThemes(s, themes, count - 1, at), NewTheme(themes[count - 1], at), at);
    }
  }

  // ---- One chapter ----

  lemma DeriveSteps(tools: Tools, s: Store, src: Source, ex: Extraction)
    requires Built(s, src.ordinal)
    ensures Step(s, Derive(tools, s, src, ex).0, src.ordinal)
    ensures Derive(tools, s, src, ex).0.chapters == s.chapters && Derive(tools, s, src, ex).0.pin == s.pin
  {
    hide Mentions;
    hide AddRelations;
    hide AddBeats;
    hide AddThemes;
    hide Extends;
    hide Built;
    var n, at := tools.names, src.ordinal;
    var roster := RosterBefore(s, at);
    var ms := ex.mentions;
    var ds := Decisions(n, tools.embedder, ms, |ms|, roster);
    RosterIsOk(s, if at - 1 > 0 then at - 1 else 0);
    RosterNamesOk(n, roster, |roster|, s);
    MergesReferBack(n, tools.embedder, ms, |ms|, roster);
    StepHere(s, at);
    MentionsStep(n, s, Start(n, s, roster), ms, ds, |ms|, roster, at);
    MentionsKeepChapters(n, Start(n, s, roster), ms, ds, |ms|, at);
    var p := Mentions(n, Start(n, s, roster), ms, ds, |ms|, at);
    RelationsStep(n, p.store, p.names, ex.relations, |ex.relations|, at);
    var linked := AddRelations(n, p.store, p.names, ex.relations, |ex.relations|, at).0;
    StepsChain(s, p.store, linked, at);
    BeatsStep(n, linked, p.names, ex.beats, |ex.beats|, at);
    var told := AddBeats(n, linked, p.names, ex.beats, |ex.beats|, at).0;
    StepsChain(s, linked, told, at);
    ThemesStep(told, ex.themes, |ex.themes|, at);
    StepsChain(s, told, AddThemes(told, ex.themes, |ex.themes|, at), at);
  }

  lemma {:induction false} FormsKeepChapters(n: Names, s: Store, known: map<string, nat>, forms: seq<string>,
                                             count: nat,
                                             id: nat, at: int)
    requires count <= |forms|
    ensures var t := AddForms(n, s, known, forms, count, id, at);
            t.chapters == s.chapters && t.pin == s.pin && t.entities == s.entities
  {
    if count > 0 { FormsKeepChapters(n, s, known, forms, count - 1, id, at); }
  }

  lemma {:induction false} MentionsKeepChapters(n: Names, p: Progress, ms: seq<Mention>, ds: seq<Decision>, count: nat,
                                                at: int)
    requires count <= |ms| == |ds|
    ensures var q := Mentions(n, p, ms, ds, count, at);
            && q.store.chapters == p.store.chapters && q.store.pin == p.store.pin
            && |q.store.entities| == |p.store.entities| + (q.creates - p.creates)
            && q.creates + q.merges == p.creates + p.merges + count
            && |q.resolved| == |p.resolved| + count
  {
    if count > 0 {
      MentionsKeepChapters(n, p, ms, ds, count - 1, at);
      MentionKeepsChapters(n, Mentions(n, p, ms, ds, count - 1, at), count - 1, ms[count - 1], ds[count - 1], at);
    }
  }

  lemma MentionKeepsChapters(n: Names, p: Progress, i: nat, m: Mention, d: Decision, at: int)
    ensures var q := StepMention(n, p, i, m, d, at);
            && q.store.chapters == p.store.chapters && q.store.pin == p.store.pin
            && |q.store.entities| == |p.store.entities| + (q.creates - p.creates)
            && q.creates + q.merges == p.creates + p.merges + 1
            && |q.resolved| == |p.resolved| + 1
  {
    hide AddForms;
    hide CurrentState;
    hide WithForms;
    if d.Merge? {
      FormsKeepChapters(n, p.store, p.names, m.aliases, |m.aliases|, Target(p, d.ref), at);
    } else {
      var begun := Commit(p.store, NewEntity(Entity(m.name, m.kind), at));
      FormsKeepChapters(n, begun, map[], m.aliases, |m.aliases|, |begun.entities|, at);
    }
  }

  /** A chapter whose key and ordinal are new opens without error. */
  lemma OpenSteps(tools: Tools, s: Store, src: Source, ex: Extraction)
    requires Built(s, src.ordinal) && !HasKey(s.chapters, src.key) && !OrdinalTaken(s.chapters, src.ordinal, None)
    ensures var (t, error) := OpenChapter(tools, s, src, ex);
            && error.None? && Step(s, t, src.ordinal) && t.pin == s.pin
            && t.chapters == s.chapters + [Row(Chapter(src.key, src.title, tools.hash(src.text)), src.ordinal, None,
                                               false)]
  {
    hide Extends;
    var at := src.ordinal;
    var w := NewChapter(Chapter(src.key, src.title, tools.hash(src.text)), at);
    StepHere(s, at);
    FittingWriteSucceeds(s, w, at);
    WriteSteps(s, s, w, at);
    NewKeyIsFree(s, src.key);
    var a := Commit(s, w);
    assert a.chapters[|s.chapters|].fact.key == src.key;
    forall i | 0 <= i < |a.raws| ensures a.raws[i].fact.chapterKey != src.key {
      assert Opened(s, s.raws[i].fact.chapterKey, s.raws[i].revealedAt);
    }
    var r := if src.text == "" then a else Commit(a, NewRaw(RawText(src.key, src.text), at));
    if src.text != "" {
      FittingWriteSucceeds(a, NewRaw(RawText(src.key, src.text), at), at);
      WriteSteps(s, a, NewRaw(RawText(src.key, src.text), at), at);
    }
    assert r.chapters == a.chapters;
    WriteSteps(s, r, NewSummary(Summary(src.key, ChapterSummary, ex.summary), at), at);
  }

  /** Only the pinned embedding identity can stop a new chapter, and then all its other rows are stored. */
  lemma IngestSteps(tools: Tools, s: Store, src: Source, ex: Extraction)
    requires Built(s, src.ordinal) && !HasKey(s.chapters, src.key) && !OrdinalTaken(s.chapters, src.ordinal, None)
    ensures var out := Ingest(tools, s, src, ex);
            && !out.Skipped? && (out.Raised? ==> out.error == WrongEmbedding && s.pin.Some?)
            && Step(s, out.store, src.ordinal)
            && out.store.chapters == s.chapters + [Row(Chapter(src.key, src.title, tools.hash(src.text)), src.ordinal,
                                                       None, false)]
            && out.store.pin == s.pin
  {
    hide Extends;
    hide Built;
    hide Derive;
    hide OpenChapter;
    OpenSteps(tools, s, src, ex);
    var begun := OpenChapter(tools, s, src, ex).0;
    DeriveSteps(tools, begun, src, ex);
    var derived := Derive(tools, begun, src, ex).0;
    StepsChain(s, begun, derived, src.ordinal);
    if tools.chunkEmbed.Some? && src.text != "" {
      assert derived.chapters[|s.chapters|].fact.key == src.key;
      WriteSteps(s, derived, NewChunk(ChunkOf(tools.chunkEmbed.value, src), src.ordinal), src.ordinal);
    }
  }

  /** Nothing extracted is lost or counted twice. */
  lemma IngestConserves(tools: Tools, s: Store, src: Source, ex: Extraction)
    requires Built(s, src.ordinal) && !HasKey(s.chapters, src.key) && !OrdinalTaken(s.chapters, src.ordinal, None)
    ensures var out := Ingest(tools, s, src, ex);
            out.Ingested? ==>
              && out.report.merges + out.report.creates == |ex.mentions| == |out.report.resolved|
              && |out.store.entities| == |s.entities| + out.report.creates
              && |out.store.edges| + out.report.unresolved == |s.edges| + |ex.relations|
              && |out.store.events| == |s.events| + |ex.beats|
  {
    hide Built;
    hide Extends;
    hide Derive;
    hide OpenChapter;
    OpenSteps(tools, s, src, ex);
    var begun := OpenChapter(tools, s, src, ex).0;
    OpenKeepsStory(tools, s, src, ex);
    DeriveConserves(tools, begun, src, ex);
  }

  lemma OpenKeepsStory(tools: Tools, s: Store, src: Source, ex: Extraction)
    ensures var t := OpenChapter(tools, s, src, ex).0;
            t.entities == s.entities && t.edges == s.edges && t.events == s.events
  {
  }

  lemma DeriveConserves(tools: Tools, s: Store, src: Source, ex: Extraction)
    requires Built(s, src.ordinal)
    ensures var (t, report) := Derive(tools, s, src, ex);
            && report.merges + report.creates == |ex.mentions| == |report.resolved|
            && |t.entities| == |s.entities| + report.creates
            && |t.edges| + report.unresolved == |s.edges| + |ex.relations|
            && |t.events| == |s.events| + |ex.beats|
  {
    hide Mentions;
    hide AddRelations;
    hide AddBeats;
    hide AddThemes;
    hide Extends;
    hide Built;
    var n, at := tools.names, src.ordinal;
    var roster := RosterBefore(s, at);
    var ms := ex.mentions;
    var ds := Decisions(n, tools.embedder, ms, |ms|, roster);
    RosterIsOk(s, if at - 1 > 0 then at - 1 else 0);
    RosterNamesOk(n, roster, |roster|, s);
    MergesReferBack(n, tools.embedder, ms, |ms|, roster);
    StepHere(s, at);
    MentionsStep(n, s, Start(n, s, roster), ms, ds, |ms|, roster, at);
    MentionsKeepChapters(n, Start(n, s, roster), ms, ds, |ms|, at);
    MentionsKeepStory(n, Start(n, s, roster), ms, ds, |ms|, at);
    var p := Mentions(n, Start(n, s, roster), ms, ds, |ms|, at);
    RelationsStep(n, p.store, p.names, ex.relations, |ex.relations|, at);
    RelationsConserve(n, p.store, p.names, ex.relations, |ex.relations|, at);
    var linked := AddRelations(n, p.store, p.names, ex.relations, |ex.relations|, at).0;
    BeatsStep(n, linked, p.names, ex.beats, |ex.beats|, at);
    var told := AddBeats(n, linked, p.names, ex.beats, |ex.beats|, at).0;
    ThemesStep(told, ex.themes, |ex.themes|, at);
  }

  lemma {:induction false} FormsKeepStory(n: Names, s: Store, known: map<string, nat>, forms: seq<string>, count: nat,
                                          id: nat, at: int)
    requires count <= |forms|
    ensures var t := AddForms(n, s, known, forms, count, id, at); t.edges == s.edges && t.events == s.events
  {
    if count > 0 { FormsKeepStory(n, s, known, forms, count - 1, id, at); }
  }

  lemma {:induction false} MentionsKeepStory(n: Names, p: Progress, ms: seq<Mention>, ds: seq<Decision>, count: nat,
                                             at: int)
    requires count <= |ms| == |ds|
    ensures var q := Mentions(n, p, ms, ds, count, at);
            q.store.edges == p.store.edges && q.store.events == p.store.events
  {
    if count > 0 {
      MentionsKeepStory(n, p, ms, ds, count - 1, at);
      MentionKeepsStory(n, Mentions(n, p, ms, ds, count - 1, at), count - 1, ms[count - 1], ds[count - 1], at);
    }
  }

  lemma MentionKeepsStory(n: Names, p: Progress, i: nat, m: Mention, d: Decision, at: int)
    ensures var q := StepMention(n, p, i, m, d, at);
            q.store.edges == p.store.edges && q.store.events == p.store.events
  {
    hide AddForms;
    hide CurrentState;
    hide WithForms;
    if d.Merge? {
      FormsKeepStory(n, p.store, p.names, m.aliases, |m.aliases|, Target(p, d.ref), at);
    } else {
      var begun := Commit(p.store, NewEntity(Entity(m.name, m.kind), at));
      FormsKeepStory(n, begun, map[], m.aliases, |m.aliases|, |begun.entities|, at);
    }
  }

  lemma {:induction false} RelationsConserve(n: Names, s: Store, names: map<string, nat>, rels: seq<Relation>,
                                             count: nat, at: int)
    requires count <= |rels| && Built(s, at) && NamesOk(names, s)
    ensures var (t, unresolved) := AddRelations(n, s, names, rels, count, at);
            |t.edges| + unresolved == |s.edges| + count
  {
    hide Built;
    hide Extends;
    if count > 0 {
      RelationsStep(n, s, names, rels, count - 1, at);
      RelationsConserve(n, s, names, rels, count - 1, at);
    }
  }

  // ---- A run ----

  ghost predicate EndsBy(jobs: seq<Job>, at: int) {
    jobs == [] || jobs[|jobs| - 1].src.ordinal <= at
  }

  /** The chapters of the store are the chapters of the jobs done so far. */
  ghost predicate ChaptersFrom(tools: Tools, s: Store, jobs: seq<Job>) {
    && |s.chapters| <= |jobs|
    && forall i :: 0 <= i < |s.chapters| ==>
         s.chapters[i].revealedAt == jobs[i].src.ordinal
         && s.chapters[i].fact == Chapter(jobs[i].src.key, jobs[i].src.title, tools.hash(jobs[i].src.text))
  }

  /** The next chapter of an in-order run meets a store that has neither its key nor its ordinal. */
  lemma NextIsNew(tools: Tools, s: Store, jobs: seq<Job>)
    requires jobs != [] && InOrder(jobs) && ChaptersFrom(tools, s, jobs[..|jobs| - 1])
    ensures var src := jobs[|jobs| - 1].src;
            !HasKey(s.chapters, src.key) && !OrdinalTaken(s.chapters, src.ordinal, None)
  {
    var n := |jobs| - 1;
    forall i | 0 <= i < |s.chapters|
      ensures s.chapters[i].fact.key != jobs[n].src.key && s.chapters[i].revealedAt != jobs[n].src.ordinal
    { assert jobs[..n][i] == jobs[i]; }
  }

  lemma ChaptersGrow(tools: Tools, s: Store, t: Store, jobs: seq<Job>)
    requires jobs != [] && ChaptersFrom(tools, s, jobs[..|jobs| - 1]) && |s.chapters| == |jobs| - 1
    requires var src := jobs[|jobs| - 1].src;
             t.chapters == s.chapters + [Row(Chapter(src.key, src.title, tools.hash(src.text)), src.ordinal, None,
                                             false)]
    ensures ChaptersFrom(tools, t, jobs)
  {
    forall i | 0 <= i < |s.chapters| ensures t.chapters[i] == s.chapters[i] && jobs[..|jobs| - 1][i] == jobs[i] {}
  }

  /** An in-order run keeps the invariant and can only be stopped by a pinned embedding identity. */
  lemma {:induction false} RunBuilds(tools: Tools, pin: Option<Pin>, jobs: seq<Job>, at: int)
    requires InOrder(jobs) && EndsBy(jobs, at)
    ensures var out := Run(tools, pin, jobs);
            && Built(out.store, at) && out.store.pin == pin && ChaptersFrom(tools, out.store, jobs)
            && (out.Raised? ==> out.error == WrongEmbedding && pin.Some?)
            && (!out.Raised? ==> |out.store.chapters| == |jobs|)
  {
    hide Ingest;
    hide Extends;
    hide Built;
    hide HasKey;
    hide OrdinalTaken;
    if jobs == [] {
      EmptyBuilt(pin, at);
    } else {
      var n := |jobs| - 1;
      var last := jobs[n];
      assert EndsBy(jobs[..n], last.src.ordinal);
      RunBuilds(tools, pin, jobs[..n], last.src.ordinal);
      var before := Run(tools, pin, jobs[..n]);
      if !before.Raised? {
        NextIsNew(tools, before.store, jobs);
        IngestSteps(tools, before.store, last.src, last.extraction);
        ChaptersGrow(tools, before.store, Run(tools, pin, jobs).store, jobs);
      }
      BuiltLater(Run(tools, pin, jobs).store, last.src.ordinal, at);
    }
  }

  lemma ExtendsDown(s: Store, t: Store, c: int, b: int)
    requires Extends(s, t, c) && b <= c
    ensures Extends(s, t, b)
  {
    GrowsDown(s.chapters, t.chapters, c, b);
    GrowsDown(s.raws, t.raws, c, b);
    GrowsDown(s.summaries, t.summaries, c, b);
    GrowsDown(s.entities, t.entities, c, b);
    GrowsDown(s.aliases, t.aliases, c, b);
    GrowsDown(s.edges, t.edges, c, b);
    GrowsDown(s.events, t.events, c, b);
    GrowsDown(s.themes, t.themes, c, b);
    GrowsDown(s.states, t.states, c, b);
    GrowsDown(s.chunks, t.chunks, c, b);
    forall i | |s.links| <= i < |t.links| ensures EventLater(t, t.links[i].event, b) {
      assert EventLater(t, t.links[i].event, c);
    }
  }

  lemma GrowsDown<T(!new)>(t: seq<Row<T>>, u: seq<Row<T>>, c: int, b: int)
    requires Grows(t, u, c) && b <= c
    ensures Grows(t, u, b)
  {
    forall i | 0 <= i < |t| ensures SameAt(t[i], u[i], b) { assert SameAt(t[i], u[i], c); }
  }

  lemma {:induction false} UpToAll(jobs: seq<Job>, b: int)
    requires InOrder(jobs) && EndsBy(jobs, b)
    ensures UpTo(jobs, b) == jobs
  {
    if jobs != [] {
      var n := |jobs| - 1;
      assert n > 0 ==> jobs[n - 1].src.ordinal < jobs[n].src.ordinal;
      UpToAll(jobs[..n], b);
    }
  }

  lemma {:induction false} RunExtendsPrefix(tools: Tools, pin: Option<Pin>, jobs: seq<Job>, b: int)
    requires InOrder(jobs)
    ensures Extends(Run(tools, pin, UpTo(jobs, b)).store, Run(tools, pin, jobs).store, b)
  {
    hide Ingest;
    hide Extends;
    hide Built;
    if EndsBy(jobs, b) {
      UpToAll(jobs, b);
      StoreGrows(Run(tools, pin, jobs).store, b);
    } else {
      var n := |jobs| - 1;
      var last := jobs[n];
      RunExtendsPrefix(tools, pin, jobs[..n], b);
      RunBuilds(tools, pin, jobs[..n], last.src.ordinal);
      var before := Run(tools, pin, jobs[..n]);
      if !before.Raised? {
        NextIsNew(tools, before.store, jobs);
        IngestSteps(tools, before.store, last.src, last.extraction);
        var after := Run(tools, pin, jobs).store;
        ExtendsDown(before.store, after, last.src.ordinal - 1, b);
        ExtendsTransitive(Run(tools, pin, UpTo(jobs, b)).store, before.store, after, b);
      }
    }
  }

  /**
   Story-time non-interference: what a reader sees at bookmark `b`, in every read, does not depend on the
   chapters after `b`. It holds for every in-order run, closing chapters of edges included.
   */
  lemma NonInterference(tools: Tools, pin: Option<Pin>, jobs: seq<Job>, b: int, cosine: (seq<real>, seq<real>) -> real)
    requires InOrder(jobs)
    ensures SameView(Run(tools, pin, UpTo(jobs, b)).store, Run(tools, pin, jobs).store, b, cosine)
    ensures Relationships(Run(tools, pin, UpTo(jobs, b)).store, b) == Relationships(Run(tools, pin, jobs).store, b)
  {
    hide SameView;
    hide Run;
    var small, full := Run(tools, pin, UpTo(jobs, b)).store, Run(tools, pin, jobs).store;
    RunExtendsPrefix(tools, pin, jobs, b);
    ExtensionSameView(small, full, b, cosine);
    ChapterReadsGrow(small, full, b);
    RunNeverClosesEdges(tools, pin, jobs);
    UpToInOrder(jobs, b);
    RunNeverClosesEdges(tools, pin, UpTo(jobs, b));
    OpenWindows(small, full, b);
  }

  lemma RunNeverClosesEdges(tools: Tools, pin: Option<Pin>, jobs: seq<Job>)
    requires InOrder(jobs)
    ensures NeverClosed(Run(tools, pin, jobs).store.edges)
  {
    hide Run;
    RunBuilds(tools, pin, jobs, if jobs == [] then 0 else jobs[|jobs| - 1].src.ordinal);
  }

  lemma {:induction false} UpToInOrder(jobs: seq<Job>, b: int)
    requires InOrder(jobs)
    ensures InOrder(UpTo(jobs, b)) && UpTo(jobs, b) <= jobs
  {
    if jobs != [] {
      var n := |jobs| - 1;
      if jobs[n].src.ordinal <= b { UpToAll(jobs, b); }
      else { UpToInOrder(jobs[..n], b); }
    }
  }

  lemma OpenWindows(s: Store, t: Store, b: int)
    requires NeverClosed(s.edges) && NeverClosed(t.edges) && EdgeHits(s, b) == EdgeHits(t, b)
    ensures Relationships(s, b) == Relationships(t, b)
  {
    var hits := EdgeHits(s, b);
    forall k | 0 <= k < |hits| ensures Windows(s, hits)[k] == None == Windows(t, hits)[k] {}
    assert Windows(s, hits) == Windows(t, hits);
  }

  /** Re-ingesting any chapter of a completed run is a no-op. */
  lemma ReplaySkips(tools: Tools, pin: Option<Pin>, jobs: seq<Job>, i: nat)
    requires InOrder(jobs) && i < |jobs| && !Run(tools, pin, jobs).Raised?
    ensures var s := Run(tools, pin, jobs).store;
            Ingest(tools, s, jobs[i].src, jobs[i].extraction) == Skipped(s)
  {
    hide Run;
    RunBuilds(tools, pin, jobs, jobs[|jobs| - 1].src.ordinal);
    var s := Run(tools, pin, jobs).store;
    assert s.chapters[i].fact.key == jobs[i].src.key;
  }

  // ---- State timelines ----

  /**
   At every bookmark an entity has at most one valid state, and from its first state on it has exactly one:
   the one `current_state` returns. No gap, no overlap, no empty window.
   */
  lemma StateTimeline(tools: Tools, pin: Option<Pin>, jobs: seq<Job>, entity: nat, b: int)
    requires InOrder(jobs)
    ensures var s := Run(tools, pin, jobs).store;
            && (forall i, j :: Shows(s, entity, b, i) && Shows(s, entity, b, j) ==> i == j)
            && ((exists i :: Begun(s, entity, b, i)) <==> CurrentState(s, b, entity).Some?)
            && (forall i :: Shows(s, entity, b, i) ==>
                  CurrentState(s, b, entity) == Some(Hit(i + 1, s.states[i].revealedAt, s.states[i].fact)))
            && (forall i :: 0 <= i < |s.states| && s.states[i].invalidAt.Some? ==>
                  s.states[i].revealedAt < s.states[i].invalidAt.value)
  {
    hide Run;
    RunBuilds(tools, pin, jobs, if jobs == [] then 0 else jobs[|jobs| - 1].src.ordinal);
    var s := Run(tools, pin, jobs).store;
    CurrentStateIsTheState(s, entity, b);
    forall i | Begun(s, entity, b, i) ensures EntityVisible(s, b, entity) {
      assert Met(s, s.states[i].fact.entity, s.states[i].revealedAt);
    }
    forall i | Shows(s, entity, b, i) ensures Begun(s, entity, b, i) {}
  }

  // ---- Referential closure ----

  /**
   On a store built by a run the referential-closure filters hide nothing: each filtered read returns
   exactly the rows that the spoiler clause alone lets through.
   */
  lemma ClosureHidesNothing(tools: Tools, pin: Option<Pin>, jobs: seq<Job>, b: int)
    requires InOrder(jobs)
    ensures ClosureIdle(Run(tools, pin, jobs).store, b)
  {
    hide Run;
    hide ClosureIdle;
    var at := if jobs == [] then 0 else jobs[|jobs| - 1].src.ordinal;
    RunBuilds(tools, pin, jobs, at);
    BuiltClosureIdle(Run(tools, pin, jobs).store, at, b);
  }

  ghost predicate ClosureIdle(s: Store, b: int) {
    && Select(s.edges, b, EndsVisible(s, b)) == Select(s.edges, b, Any())
    && (forall e ::
        Select(s.aliases, b, AliasOf(s, b, e)) == Select(s.aliases, b, (id: nat, a: Alias) => a.entity == e))
    && (forall e ::
        Select(s.states, b, StateOf(s, b, e)) == Select(s.states, b, (id: nat, st: State) => st.entity == e))
    && (forall l :: l in s.links && EventVisible(s, b, l.event) ==> EntityVisible(s, b, l.entity))
    && Select(s.summaries, b, ChapterRecap(s, b))
       == Select(s.summaries, b, (id: nat, m: Summary) => m.kind == ChapterSummary)
    && (forall key ::
        Select(s.raws, b, RawOf(s, b, key)) == Select(s.raws, b, (id: nat, r: RawText) => r.chapterKey == key))
    && (forall i :: 0 <= i < |s.chunks| && VisibleAt(s.chunks[i], b) ==> ChapterLive(s, b, s.chunks[i].fact.chapterKey))
  }

  lemma BuiltClosureIdle(s: Store, at: int, b: int)
    requires Built(s, at)
    ensures ClosureIdle(s, b)
  {
    MetIsVisible(s, at, b);
    assert RefsClosed(s);
    hide Built;
    hide EntityVisible;
    hide ChapterLive;
    hide Met;
    hide Opened;
    SelectPointwise(s.edges, s.edges, b, EndsVisible(s, b), Any());
    forall e { SelectPointwise(s.aliases, s.aliases, b, AliasOf(s, b, e), (id: nat, a: Alias) => a.entity == e); }
    forall e { SelectPointwise(s.states, s.states, b, StateOf(s, b, e), (id: nat, st: State) => st.entity == e); }
    SelectPointwise(s.summaries, s.summaries, b, ChapterRecap(s, b), (id: nat, m: Summary) => m.kind == ChapterSummary);
    forall key { SelectPointwise(s.raws, s.raws, b, RawOf(s, b, key), (id: nat, r: RawText) => r.chapterKey == key); }
    hide Select;
  }

  lemma MetIsVisible(s: Store, at: int, b: int)
    requires Built(s, at)
    ensures forall e, o :: Met(s, e, o) && o <= b ==> EntityVisible(s, b, e)
    ensures forall key, o :: Opened(s, key, o) && o <= b ==> ChapterLive(s, b, key)
  {
  }
}
