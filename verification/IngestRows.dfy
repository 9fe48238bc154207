/**
 The rows that an ingestion adds, table by table: which entities and aliases the mentions store and under which
 ids, and what is filed of a chapter whatever its extraction says.
 */
module IngestRows {
  import opened Wrappers
  import opened StoryMemory
  import opened Resolution
  import opened Ingestion
  import opened NameTable
  import opened StoreInvariants
  import opened IngestionTheorems

  function NewRow<T>(fact: T, at: int): Row<T> {
    Row(fact, at, None, false)
  }

  function NewRows<T>(facts: seq<T>, at: int): seq<Row<T>> {
    seq(|facts|, i requires 0 <= i < |facts| => NewRow(facts[i], at))
  }

  lemma NewRowsJoin<T>(a: seq<T>, b: seq<T>, at: int)
    ensures NewRows(a + b, at) == NewRows(a, at) + NewRows(b, at)
  {
  }

  // ---- Aliases ----

  /** Of the first `count` forms: all for a created entity, for another those that stand for nothing yet. */
  ghost function FreshForms(n: Names, bs: seq<Bearer>, created: bool, forms: seq<string>, count: nat, id: nat)
    : seq<Alias>
    requires count <= |forms|
  {
    if count == 0 then []
    else
      var form := forms[count - 1];
      FreshForms(n, bs, created, forms, count - 1, id)
      + if created || StandsFor(n, bs, n.norm(form), None) then [Alias(id, form)] else []
  }

  lemma {:induction false} FormsAreStored(n: Names, s: Store, bs: seq<Bearer>, known: map<string, nat>, created: bool,
                                          forms: seq<string>, count: nat, id: nat, at: int)
    requires count <= |forms| && ValidId(s.entities, id)
    requires if created then known == map[] else Tells(n, bs, known)
    ensures AddForms(n, s, known, forms, count, id, at)
            == s.(aliases := s.aliases + NewRows(FreshForms(n, bs, created, forms, count, id), at))
  {
    hide StandsFor;
    if count > 0 {
      FormsAreStored(n, s, bs, known, created, forms, count - 1, id, at);
      var key := n.norm(forms[count - 1]);
      if !created { StandsForNothing(n, bs, known, key); }
      var prior := FreshForms(n, bs, created, forms, count - 1, id);
      NewRowsJoin(prior, [Alias(id, forms[count - 1])], at);
    }
  }

  lemma StandsForNothing(n: Names, bs: seq<Bearer>, names: map<string, nat>, key: string)
    requires Tells(n, bs, names)
    ensures StandsFor(n, bs, key, None) <==> key !in names
  {
    assert StandsFor(n, bs, key, Entry(names, key));
    hide StandsFor;
    if StandsFor(n, bs, key, None) { StandsForOne(n, bs, key, Entry(names, key), None); }
  }

  /** What the first `count` mentions add to the aliases, each judged by the names that stood before it. */
  ghost function MentionedForms(n: Names, roster: seq<RosterEntry>, ms: seq<Mention>, ds: seq<Decision>,
                                resolved: seq<nat>, count: nat): seq<Alias>
    requires count <= |ms| && count <= |ds| && count <= |resolved|
  {
    if count == 0 then []
    else
      var i := count - 1;
      MentionedForms(n, roster, ms, ds, resolved, i)
      + FreshForms(n, Bearers(roster, ms, resolved, i), ds[i].Create?, ms[i].aliases, |ms[i].aliases|, resolved[i])
  }

  lemma {:induction false} MentionedFormsPrefix(n: Names, roster: seq<RosterEntry>, ms: seq<Mention>,
                                                ds: seq<Decision>, a: seq<nat>, b: seq<nat>, count: nat)
    requires count <= |ms| && count <= |ds| && count <= |a| && a <= b
    ensures MentionedForms(n, roster, ms, ds, a, count) == MentionedForms(n, roster, ms, ds, b, count)
  {
    hide FreshForms;
    hide RosterBearers;
    if count > 0 {
      MentionedFormsPrefix(n, roster, ms, ds, a, b, count - 1);
      MentionBearersPrefix(ms, a, b, count - 1);
    }
  }

  // ---- Entities ----

  /** The entities that the first `count` mentions create, in order. */
  function CreatedEntities(ms: seq<Mention>, ds: seq<Decision>, count: nat): seq<Entity>
    requires count <= |ms| && count <= |ds|
  {
    if count == 0 then []
    else
      var m := ms[count - 1];
      CreatedEntities(ms, ds, count - 1) + if ds[count - 1].Create? then [Entity(m.name, m.kind)] else []
  }

  /** A mention resolves to the entity its decision names, or to the one it created in its turn. */
  ghost predicate ResolvedTo(base: nat, ms: seq<Mention>, ds: seq<Decision>, resolved: seq<nat>, i: nat)
    requires i < |ms| && i < |ds| && i < |resolved|
  {
    match ds[i]
    case Create(_) => resolved[i] == base + |CreatedEntities(ms, ds, i + 1)|
    case Merge(Known(id), _) => resolved[i] == id
    case Merge(Pending(j), _) => j < i && ds[j].Create? && resolved[i] == resolved[j]
  }

  ghost predicate RemembersCreated(q: Progress, ds: seq<Decision>) {
    forall j: nat :: j < |q.resolved| && j < |ds| && ds[j].Create? ==>
      j in q.created && q.created[j] == q.resolved[j]
  }

  lemma AdvanceOnlyStates(s: Store, id: nat, state: Option<string>, at: int)
    ensures var t := AdvanceState(s, id, state, at); t == s.(states := t.states)
  {
  }

  lemma FirstOnlyStates(s: Store, id: nat, state: Option<string>, at: int)
    ensures var t := FirstState(s, id, state, at); t == s.(states := t.states)
  {
  }

  lemma MergeStores(n: Names, p: Progress, m: Mention, id: nat, at: int, bs: seq<Bearer>)
    requires Tells(n, bs, p.names) && ValidId(p.store.entities, id)
    ensures var q := MergeMention(n, p, m, id, at);
            && q.resolved == p.resolved + [id] && q.created == p.created
            && q.store == p.store.(aliases := p.store.aliases
                                   + NewRows(FreshForms(n, bs, false, m.aliases, |m.aliases|, id), at),
                                   states := q.store.states)
  {
    FormsAreStored(n, p.store, bs, p.names, false, m.aliases, |m.aliases|, id, at);
    AdvanceOnlyStates(AddForms(n, p.store, p.names, m.aliases, |m.aliases|, id, at), id, m.state, at);
    hide AddForms;
    hide AdvanceState;
    hide WithForms;
    hide FreshForms;
    hide NewRows;
  }

  lemma CreateStores(n: Names, p: Progress, i: nat, m: Mention, at: int, bs: seq<Bearer>)
    ensures var q := CreateMention(n, p, i, m, at);
            var id := |p.store.entities| + 1;
            && q.resolved == p.resolved + [id] && q.created == p.created[i := id]
            && q.store == p.store.(entities := p.store.entities + [NewRow(Entity(m.name, m.kind), at)],
                                   aliases := p.store.aliases
                                   + NewRows(FreshForms(n, bs, true, m.aliases, |m.aliases|, id), at),
                                   states := q.store.states)
  {
    var begun := Commit(p.store, NewEntity(Entity(m.name, m.kind), at));
    var id := |begun.entities|;
    FormsAreStored(n, begun, bs, map[], true, m.aliases, |m.aliases|, id, at);
    FirstOnlyStates(AddForms(n, begun, map[], m.aliases, |m.aliases|, id, at), id, m.state, at);
    hide AddForms;
    hide FirstState;
    hide WithForms;
    hide FreshForms;
    hide NewRows;
  }

  /** What the mentions store: entities and aliases as listed, each mention resolved as decided. */
  ghost predicate Stored(n: Names, s: Store, roster: seq<RosterEntry>, ms: seq<Mention>, ds: seq<Decision>,
                         count: nat, q: Progress, at: int)
    requires count <= |ms| == |ds|
  {
    && |q.resolved| == count && RemembersCreated(q, ds)
    && q.store == s.(entities := s.entities + NewRows(CreatedEntities(ms, ds, count), at),
                     aliases := s.aliases + NewRows(MentionedForms(n, roster, ms, ds, q.resolved, count), at),
                     states := q.store.states)
    && forall i :: 0 <= i < count ==> ResolvedTo(|s.entities|, ms, ds, q.resolved, i)
  }

  /** What one mention adds, given the names that stood before it. */
  ghost predicate Adds(n: Names, p: Progress, q: Progress, m: Mention, d: Decision, bs: seq<Bearer>, id: nat, at: int) {
    var entities := if d.Create? then [NewRow(Entity(m.name, m.kind), at)] else [];
    && q.resolved == p.resolved + [id]
    && q.store == p.store.(entities := p.store.entities + entities,
                           aliases := p.store.aliases
                           + NewRows(FreshForms(n, bs, d.Create?, m.aliases, |m.aliases|, id), at),
                           states := q.store.states)
  }

  lemma StepAdds(n: Names, p: Progress, i: nat, m: Mention, d: Decision, at: int, bs: seq<Bearer>)
    requires Tells(n, bs, p.names) && (d.Merge? ==> ValidId(p.store.entities, Target(p, d.ref)))
    ensures var q := StepMention(n, p, i, m, d, at);
            var id := if d.Create? then |p.store.entities| + 1 else Target(p, d.ref);
            Adds(n, p, q, m, d, bs, id, at) && q.created == if d.Create? then p.created[i := id] else p.created
  {
    if d.Merge? {
      MergeStores(n, p, m, Target(p, d.ref), at, bs);
      assert p.store.entities + [] == p.store.entities;
    } else {
      CreateStores(n, p, i, m, at, bs);
    }
    hide MergeMention;
    hide CreateMention;
    hide Tells;
    hide FreshForms;
    hide NewRows;
  }

  lemma StepStores(n: Names, s: Store, roster: seq<RosterEntry>, ms: seq<Mention>, ds: seq<Decision>, i: nat,
                   p: Progress, at: int)
    requires i < |ms| == |ds| && Stored(n, s, roster, ms, ds, i, p, at) && AllReferBack(roster, ds)
    requires forall e :: e in roster ==> e.ref.Known?
    requires Tells(n, Bearers(roster, ms, p.resolved, i), p.names)
    requires ds[i].Merge? ==> ValidId(p.store.entities, Target(p, ds[i].ref))
    ensures Stored(n, s, roster, ms, ds, i + 1, StepMention(n, p, i, ms[i], ds[i], at), at)
  {
    var m, d, q := ms[i], ds[i], StepMention(n, p, i, ms[i], ds[i], at);
    var bs := Bearers(roster, ms, p.resolved, i);
    var id := if d.Create? then |p.store.entities| + 1 else Target(p, d.ref);
    hide StepMention;
    hide Tells;
    hide Bearers;
    hide StandsFor;
    StepAdds(n, p, i, m, d, at, bs);
    MoreEntities(ms, ds, i, at);
    MoreForms(n, roster, ms, ds, p.resolved, q.resolved, i, at);
    IdResolves(n, s, roster, ms, ds, i, p, id, at);
    hide FreshForms;
    hide MentionedForms;
    hide CreatedEntities;
    hide NewRows;
    hide ResolvedTo;
    hide RemembersCreated;
    hide AllReferBack;
    MoreResolved(|s.entities|, ms, ds, p, q, i);
    StoresGrow(s, p.store, q.store, NewRows(CreatedEntities(ms, ds, i), at),
               if d.Create? then [NewRow(Entity(m.name, m.kind), at)] else [],
               NewRows(MentionedForms(n, roster, ms, ds, p.resolved, i), at),
               NewRows(FreshForms(n, bs, d.Create?, m.aliases, |m.aliases|, id), at));
  }

  lemma IdResolves(n: Names, s: Store, roster: seq<RosterEntry>, ms: seq<Mention>, ds: seq<Decision>, i: nat,
                   p: Progress, id: nat, at: int)
    requires i < |ms| == |ds| && Stored(n, s, roster, ms, ds, i, p, at) && AllReferBack(roster, ds)
    requires forall e :: e in roster ==> e.ref.Known?
    requires id == if ds[i].Create? then |p.store.entities| + 1 else Target(p, ds[i].ref)
    ensures ResolvedTo(|s.entities|, ms, ds, p.resolved + [id], i)
  {
    hide MentionedForms;
    if ds[i].Merge? {
      assert RefersBack(ds[i].ref, roster, ds, i);
    } else {
      MoreEntities(ms, ds, i, at);
    }
  }

  lemma StoresGrow(s: Store, t: Store, u: Store, e: seq<Row<Entity>>, f: seq<Row<Entity>>, a: seq<Row<Alias>>,
                   b: seq<Row<Alias>>)
    requires t == s.(entities := s.entities + e, aliases := s.aliases + a, states := t.states)
    requires u == t.(entities := t.entities + f, aliases := t.aliases + b, states := u.states)
    ensures u == s.(entities := s.entities + (e + f), aliases := s.aliases + (a + b), states := u.states)
  {
    assert s.entities + e + f == s.entities + (e + f);
    assert s.aliases + a + b == s.aliases + (a + b);
  }

  lemma MoreEntities(ms: seq<Mention>, ds: seq<Decision>, i: nat, at: int)
    requires i < |ms| && i < |ds|
    ensures NewRows(CreatedEntities(ms, ds, i + 1), at)
            == NewRows(CreatedEntities(ms, ds, i), at)
               + (if ds[i].Create? then [NewRow(Entity(ms[i].name, ms[i].kind), at)] else [])
    ensures |NewRows(CreatedEntities(ms, ds, i), at)| == |CreatedEntities(ms, ds, i)|
  {
    if ds[i].Create? { NewRowsJoin(CreatedEntities(ms, ds, i), [Entity(ms[i].name, ms[i].kind)], at); }
  }

  lemma MoreForms(n: Names, roster: seq<RosterEntry>, ms: seq<Mention>, ds: seq<Decision>, a: seq<nat>, b: seq<nat>,
                  i: nat, at: int)
    requires i < |ms| && i < |ds| && |a| == i && |b| == i + 1 && a <= b
    ensures NewRows(MentionedForms(n, roster, ms, ds, b, i + 1), at)
            == NewRows(MentionedForms(n, roster, ms, ds, a, i), at)
               + NewRows(FreshForms(n, Bearers(roster, ms, a, i), ds[i].Create?, ms[i].aliases, |ms[i].aliases|, b[i]),
                         at)
  {
    MentionedFormsPrefix(n, roster, ms, ds, a, b, i);
    MentionBearersPrefix(ms, a, b, i);
    NewRowsJoin(MentionedForms(n, roster, ms, ds, a, i),
                FreshForms(n, Bearers(roster, ms, a, i), ds[i].Create?, ms[i].aliases, |ms[i].aliases|, b[i]), at);
    hide FreshForms;
    hide NewRows;
  }

  lemma MoreResolved(base: nat, ms: seq<Mention>, ds: seq<Decision>, p: Progress, q: Progress, i: nat)
    requires i < |ms| && i < |ds| && |p.resolved| == i && |q.resolved| == i + 1 && p.resolved <= q.resolved
    requires RemembersCreated(p, ds) && forall k :: 0 <= k < i ==> ResolvedTo(base, ms, ds, p.resolved, k)
    requires ResolvedTo(base, ms, ds, q.resolved, i)
    requires q.created == if ds[i].Create? then p.created[i := q.resolved[i]] else p.created
    ensures RemembersCreated(q, ds) && forall k :: 0 <= k < i + 1 ==> ResolvedTo(base, ms, ds, q.resolved, k)
  {
    forall k | 0 <= k < i + 1 ensures ResolvedTo(base, ms, ds, q.resolved, k) {
      if k < i { assert ResolvedTo(base, ms, ds, p.resolved, k); }
    }
  }

  /** Every mention resolves as decided and stores its entity, once, and its fresh aliases, in order. */
  lemma {:induction false} MentionsAreStored(n: Names, s: Store, roster: seq<RosterEntry>, ms: seq<Mention>,
                                             ds: seq<Decision>, count: nat, at: int)
    requires count <= |ms| == |ds| && Built(s, at) && RosterOk(roster, s) && AllReferBack(roster, ds)
    ensures Stored(n, s, roster, ms, ds, count, Mentions(n, Start(n, s, roster), ms, ds, count, at), at)
  {
    hide StepMention;
    hide Stored;
    hide Tells;
    hide Sound;
    hide AllReferBack;
    var start := Start(n, s, roster);
    if count == 0 {
      NothingStored(n, s, roster, ms, ds, at);
    } else {
      var p := Mentions(n, start, ms, ds, count - 1, at);
      MentionsAreStored(n, s, roster, ms, ds, count - 1, at);
      RosterNamesOk(n, roster, |roster|, s);
      StartIsSound(n, s, roster, at);
      MentionsStep(n, s, start, ms, ds, count - 1, roster, at);
      NamesStandForMentions(n, s, roster, ms, ds, count - 1, at);
      if ds[count - 1].Merge? { TargetIsEntity(s, p, roster, ds, count - 1, at); }
      StepStores(n, s, roster, ms, ds, count - 1, p, at);
    }
  }

  lemma NothingStored(n: Names, s: Store, roster: seq<RosterEntry>, ms: seq<Mention>, ds: seq<Decision>, at: int)
    requires |ms| == |ds|
    ensures Stored(n, s, roster, ms, ds, 0, Start(n, s, roster), at)
  {
    assert NewRows<Alias>([], at) == [] && NewRows<Entity>([], at) == [];
  }

  lemma StartIsSound(n: Names, s: Store, roster: seq<RosterEntry>, at: int)
    requires Built(s, at) && NamesOk(RosterNames(n, roster, |roster|), s)
    ensures Sound(s, Start(n, s, roster), at)
  {
    StepHere(s, at);
  }

  // ---- Themes ----

  lemma {:induction false} ThemesAreStored(s: Store, themes: seq<Theme>, count: nat, at: int)
    requires count <= |themes|
    ensures AddThemes(s, themes, count, at) == s.(themes := s.themes + NewRows(themes[..count], at))
  {
    if count == 0 {
      assert NewRows<Theme>([], at) == [];
    } else {
      ThemesAreStored(s, themes, count - 1, at);
      assert themes[..count] == themes[..count - 1] + [themes[count - 1]];
      NewRowsJoin(themes[..count - 1], [themes[count - 1]], at);
    }
  }

  // ---- The chapter itself ----

  /** The chapter, its text unless it is empty, its summary, and its opening as a chunk if embedded. */
  ghost predicate Files(tools: Tools, s: Store, t: Store, src: Source, ex: Extraction) {
    var at := src.ordinal;
    && t.pin == s.pin
    && t.chapters == s.chapters + [NewRow(Chapter(src.key, src.title, tools.hash(src.text)), at)]
    && t.raws == s.raws + (if src.text == "" then [] else [NewRow(RawText(src.key, src.text), at)])
    && t.summaries == s.summaries + [NewRow(Summary(src.key, ChapterSummary, ex.summary), at)]
    && t.chunks == s.chunks + (if EmbedsChunk(tools, src) && FitsPin(tools, s.pin, src)
                               then [NewRow(OpeningChunk(tools, s.pin, src), at)] else [])
  }

  predicate EmbedsChunk(tools: Tools, src: Source) {
    tools.chunkEmbed.Some? && src.text != ""
  }

  function Min(x: nat, y: nat): nat { if x < y then x else y }

  /** The first 500 characters under the vector of the first 2000, marked with the pinned model. */
  function OpeningChunk(tools: Tools, pin: Option<Pin>, src: Source): Chunk
    requires tools.chunkEmbed.Some?
  {
    Chunk(src.key, src.text[..Min(500, |src.text|)], tools.chunkEmbed.value(src.text[..Min(2000, |src.text|)]),
          if pin.Some? then Some(pin.value.model) else None)
  }

  /** Only a vector of another length than the pinned one is refused. */
  predicate FitsPin(tools: Tools, pin: Option<Pin>, src: Source) {
    EmbedsChunk(tools, src) && pin.Some? ==> |OpeningChunk(tools, pin, src).vec| == pin.value.dim
  }

  lemma OpenFiles(tools: Tools, s: Store, src: Source, ex: Extraction)
    requires !HasKey(s.chapters, src.key) && OpenChapter(tools, s, src, ex).1.None?
    ensures var t, at := OpenChapter(tools, s, src, ex).0, src.ordinal;
            t == s.(chapters := s.chapters + [NewRow(Chapter(src.key, src.title, tools.hash(src.text)), at)],
                    raws := s.raws + (if src.text == "" then [] else [NewRow(RawText(src.key, src.text), at)]),
                    summaries := s.summaries + [NewRow(Summary(src.key, ChapterSummary, ex.summary), at)])
  {
    var t := OpenChapter(tools, s, src, ex).0;
    assert t.chapters[|s.chapters|].fact.key == src.key;
    assert s.raws + [] == s.raws;
  }
}
