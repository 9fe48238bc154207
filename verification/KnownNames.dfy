/**
 What a run of chapters knows by name: no form that an entity is known by gives rise to a second entity of its
 type, and the forms an entity is introduced with can be read from its chapter on.
 */
module KnownNames {
  import opened Wrappers
  import opened StoryMemory
  import opened BookmarkView
  import opened StoryTime
  import opened StoreInvariants
  import opened Resolution
  import opened Ingestion
  import opened NameTable
  import opened IngestionTheorems
  import opened IngestRows
  import opened IngestContents
  import opened ReadOrder

  // ---- The roster knows every earlier entity ----

  /** The entity is called so, or a row before chapter `at` says so. */
  ghost predicate KnownAs(s: Store, id: nat, form: string, at: int)
    requires ValidId(s.entities, id)
  {
    form == s.entities[id - 1].fact.name
    || exists k :: 0 <= k < |s.aliases| && s.aliases[k].revealedAt < at && s.aliases[k].fact == Alias(id, form)
  }

  ghost predicate EntryFor(s: Store, e: RosterEntry, id: nat, at: int)
    requires ValidId(s.entities, id)
  {
    e.kind == s.entities[id - 1].fact.kind && forall form :: KnownAs(s, id, form, at) ==> form in [e.name] + e.aliases
  }

  lemma RosterKnows(s: Store, at: int, id: nat) returns (k: nat)
    requires Built(s, at - 1) && NeverClosed(s.aliases) && ValidId(s.entities, id)
    ensures k < |RosterBefore(s, at)| && EntryFor(s, RosterBefore(s, at)[k], id, at)
  {
    var b := if at - 1 > 0 then at - 1 else 0;
    var i := TypeKnows(s, at, b, id);
    hide Built;
    hide EntryFor;
    hide RosterOf;
    hide Roster;
    k := InRoster(s, b, s.entities[id - 1].fact.kind, i);
  }

  lemma InRoster(s: Store, b: int, kind: EntityKind, i: nat) returns (k: nat)
    requires i < |RosterOf(s, b, kind)|
    ensures k < |Roster(s, b)| && Roster(s, b)[k] == RosterOf(s, b, kind)[i]
  {
    hide RosterOf;
    k := match kind
      case Character => i
      case Place => |RosterOf(s, b, Character)| + i
      case Faction => |RosterOf(s, b, Character)| + |RosterOf(s, b, Place)| + i
      case Object => |RosterOf(s, b, Character)| + |RosterOf(s, b, Place)| + |RosterOf(s, b, Faction)| + i;
  }

  lemma TypeKnows(s: Store, at: int, b: int, id: nat) returns (i: nat)
    requires Built(s, at - 1) && NeverClosed(s.aliases) && ValidId(s.entities, id) && at - 1 <= b
    ensures var entries := RosterOf(s, b, s.entities[id - 1].fact.kind);
            i < |entries| && EntryFor(s, entries[i], id, at)
  {
    var kind := s.entities[id - 1].fact.kind;
    var hits := EntitiesOfType(s, b, kind);
    EntitiesRead(s, b, kind);
    var h := Hit(id, s.entities[id - 1].revealedAt, s.entities[id - 1].fact);
    assert Seen(s.entities, b, id);
    assert h in hits;
    i :| 0 <= i < |hits| && hits[i] == h;
    FormsAreRead(s, b, id);
    hide AliasesOf;
    hide EntitiesOfType;
  }

  ghost predicate AliasShown(s: Store, k: int, b: int, id: nat)
    requires 0 <= k < |s.aliases|
  {
    s.aliases[k].revealedAt <= b && !s.aliases[k].retracted && s.aliases[k].fact.entity == id
  }

  /** Every alias of an entity that may be seen is read with it. */
  lemma FormsAreRead(s: Store, b: int, id: nat)
    requires Seen(s.entities, b, id) && NeverClosed(s.aliases)
    ensures forall k :: 0 <= k < |s.aliases| && AliasShown(s, k, b, id) ==>
              s.aliases[k].fact.form in Forms(AliasesOf(s, b, id))
  {
    AliasesRead(s, b, id);
    var hits := AliasesOf(s, b, id);
    hide AliasesOf;
    forall k | 0 <= k < |s.aliases| && AliasShown(s, k, b, id) ensures s.aliases[k].fact.form in Forms(hits) {
      var h := Hit(k + 1, s.aliases[k].revealedAt, s.aliases[k].fact);
      assert Seen(s.aliases, b, k + 1);
      assert h in hits;
      var i :| 0 <= i < |hits| && hits[i] == h;
      assert Forms(hits)[i] == h.fact.form;
    }
  }

  // ---- Created entities ----

  lemma {:induction false} CreationAt(ms: seq<Mention>, ds: seq<Decision>, count: nat, k: nat) returns (i: nat)
    requires count <= |ms| && count <= |ds| && k < |CreatedEntities(ms, ds, count)|
    ensures i < count && ds[i].Create? && CreatedEntities(ms, ds, count)[k] == Entity(ms[i].name, ms[i].kind)
    ensures |CreatedEntities(ms, ds, i)| == k
  {
    var prior := CreatedEntities(ms, ds, count - 1);
    if k < |prior| { i := CreationAt(ms, ds, count - 1, k); } else { i := count - 1; }
  }

  lemma {:induction false} CreatedGrow(ms: seq<Mention>, ds: seq<Decision>, a: nat, b: nat)
    requires a <= b <= |ms| && b <= |ds|
    ensures CreatedEntities(ms, ds, a) <= CreatedEntities(ms, ds, b)
  {
    if a < b { CreatedGrow(ms, ds, a, b - 1); }
  }

  // ---- No second entity ----

  /** The later entity `j` has a name that `i`, of the same type, was called or known by at its introduction. */
  ghost predicate Recurs(n: Names, s: Store, i: nat, j: nat, form: string) {
    && 1 <= i < j <= |s.entities| && s.entities[i - 1].fact.kind == s.entities[j - 1].fact.kind
    && KnownAs(s, i, form, s.entities[j - 1].revealedAt)
    && n.NameLike(form) && n.norm(form) == n.norm(s.entities[j - 1].fact.name)
  }

  ghost predicate NoSecondEntity(n: Names, s: Store) {
    forall i: nat, j: nat, form :: !Recurs(n, s, i, j, form)
  }

  lemma RecursShares(n: Names, m: Mention, e: RosterEntry, form: string)
    requires e.kind == m.kind && form in [e.name] + e.aliases && n.NameLike(form) && n.norm(form) == n.norm(m.name)
    ensures SharesAForm(n, m, e)
  {
    assert m.name in [m.name] + m.aliases;
  }

  /** Between two stores of a chapter, what an earlier entity was known by before it does not change. */
  lemma KnownBefore(tools: Tools, s: Store, t: Store, ms: seq<Mention>, ds: seq<Decision>, resolved: seq<nat>, at: int,
                    id: nat, form: string, o: int)
    requires Built(s, at - 1) && CastStored(tools, s, t, ms, ds, resolved, at) && o <= at
    requires ValidId(t.entities, id) && KnownAs(t, id, form, o)
    ensures form == t.entities[id - 1].fact.name || (ValidId(s.entities, id) && KnownAs(s, id, form, o))
  {
    hide ChapterDecided;
    hide ResolvedTo;
    if form != t.entities[id - 1].fact.name {
      var k :| 0 <= k < |t.aliases| && t.aliases[k].revealedAt < o && t.aliases[k].fact == Alias(id, form);
      assert k < |s.aliases| && t.aliases[k] == s.aliases[k];
      assert Met(s, s.aliases[k].fact.entity, s.aliases[k].revealedAt);
    }
  }

  lemma NewcomerIsNew(tools: Tools, s: Store, t: Store, ms: seq<Mention>, ds: seq<Decision>, resolved: seq<nat>,
                      at: int, i: nat, j: nat, form: string)
    requires Built(s, at - 1) && NeverClosed(s.aliases) && CastStored(tools, s, t, ms, ds, resolved, at)
    requires |s.entities| < j <= |t.entities|
    ensures !Recurs(tools.names, t, i, j, form)
  {
    var n, roster := tools.names, RosterBefore(s, at);
    var c := CreationAt(ms, ds, |ms|, j - |s.entities| - 1);
    assert t.entities[j - 1] == NewRow(Entity(ms[c].name, ms[c].kind), at);
    NothingKnownIsCreated(n, tools.embedder, ms, roster, ds, c);
    hide ChapterDecided;
    hide SharesAForm;
    if Recurs(n, t, i, j, form) {
      KnownBefore(tools, s, t, ms, ds, resolved, at, i, form, at);
      if i <= |s.entities| {
        var k := RosterKnows(s, at, i);
        assert t.entities[i - 1] == s.entities[i - 1];
        RecursShares(n, ms[c], roster[k], form);
      } else {
        var a := CreationAt(ms, ds, |ms|, i - |s.entities| - 1);
        assert t.entities[i - 1] == NewRow(Entity(ms[a].name, ms[a].kind), at);
        if c <= a { CreatedGrow(ms, ds, c, a); }
        RecursShares(n, ms[c], EntryOf(ms, a), form);
      }
    }
  }

  lemma ChapterKeepsNames(tools: Tools, s: Store, t: Store, ms: seq<Mention>, ds: seq<Decision>, resolved: seq<nat>,
                          at: int)
    requires Built(s, at - 1) && NeverClosed(s.aliases) && CastStored(tools, s, t, ms, ds, resolved, at)
    requires NoSecondEntity(tools.names, s)
    ensures NoSecondEntity(tools.names, t) && NeverClosed(t.aliases)
  {
    var n := tools.names;
    forall i: nat, j: nat, form ensures !Recurs(n, t, i, j, form) {
      if |s.entities| < j <= |t.entities| {
        NewcomerIsNew(tools, s, t, ms, ds, resolved, at, i, j, form);
      } else if Recurs(n, t, i, j, form) {
        OlderRecurs(tools, s, t, ms, ds, resolved, at, i, j, form);
      }
    }
    hide Recurs;
    hide ChapterDecided;
  }

  lemma OlderRecurs(tools: Tools, s: Store, t: Store, ms: seq<Mention>, ds: seq<Decision>, resolved: seq<nat>,
                    at: int, i: nat, j: nat, form: string)
    requires Built(s, at - 1) && CastStored(tools, s, t, ms, ds, resolved, at)
    requires j <= |s.entities| && Recurs(tools.names, t, i, j, form)
    ensures Recurs(tools.names, s, i, j, form)
  {
    hide ChapterDecided;
    assert t.entities[i - 1] == s.entities[i - 1] && t.entities[j - 1] == s.entities[j - 1];
    KnownBefore(tools, s, t, ms, ds, resolved, at, i, form, s.entities[j - 1].revealedAt);
  }

  // ---- Runs ----

  lemma BuiltStates(s: Store, at: int)
    requires Built(s, at - 1)
    ensures Built(s, at) && StatesBefore(s, at)
  {
    BuiltLater(s, at - 1, at);
  }

  /** Every chapter that an in-order run reaches is stored as its extraction says. */
  lemma NextChapterSays(tools: Tools, pin: Option<Pin>, jobs: seq<Job>)
    requires jobs != [] && InOrder(jobs) && !Run(tools, pin, jobs[..|jobs| - 1]).Raised?
    ensures var before, last := Run(tools, pin, jobs[..|jobs| - 1]).store, jobs[|jobs| - 1];
            Built(before, last.src.ordinal - 1)
            && Reports(tools, before, Run(tools, pin, jobs), last.src, last.extraction)
  {
    hide *;
    var last := jobs[|jobs| - 1];
    var at := last.src.ordinal;
    EndsEarlier(jobs);
    RunBuilds(tools, pin, jobs[..|jobs| - 1], at - 1);
    var before := Run(tools, pin, jobs[..|jobs| - 1]).store;
    NextIsNew(tools, before, jobs);
    BuiltStates(before, at);
    ChapterSays(tools, before, last.src, last.extraction);
    RunNext(tools, pin, jobs);
  }

  lemma EndsEarlier(jobs: seq<Job>)
    requires jobs != [] && InOrder(jobs)
    ensures InOrder(jobs[..|jobs| - 1]) && EndsBy(jobs[..|jobs| - 1], jobs[|jobs| - 1].src.ordinal - 1)
  {
  }

  lemma RunNext(tools: Tools, pin: Option<Pin>, jobs: seq<Job>)
    requires jobs != [] && !Run(tools, pin, jobs[..|jobs| - 1]).Raised?
    ensures var before, last := Run(tools, pin, jobs[..|jobs| - 1]).store, jobs[|jobs| - 1];
            Run(tools, pin, jobs) == Ingest(tools, before, last.src, last.extraction)
  {
    hide Ingest;
  }

  /**
   In every in-order run, under any embedder: an entity of a type is created once for each name-like name, and
   never under a name that an earlier entity of the type was known by in the chapters before.
   */
  lemma {:induction false} OneEntityPerName(tools: Tools, pin: Option<Pin>, jobs: seq<Job>)
    requires InOrder(jobs)
    ensures var s := Run(tools, pin, jobs).store; NoSecondEntity(tools.names, s) && NeverClosed(s.aliases)
  {
    hide Ingest;
    hide NoSecondEntity;
    hide Reports;
    hide Built;
    if jobs == [] {
      NobodyRecurs(tools.names, pin);
    } else {
      var n := |jobs| - 1;
      OneEntityPerName(tools, pin, jobs[..n]);
      var before, out := Run(tools, pin, jobs[..n]), Run(tools, pin, jobs);
      if !before.Raised? {
        NextChapterSays(tools, pin, jobs);
        ReportedKeepsNames(tools, before.store, out, jobs[n].src, jobs[n].extraction);
      }
    }
  }

  lemma ReportedKeepsNames(tools: Tools, s: Store, out: Outcome, src: Source, ex: Extraction)
    requires Built(s, src.ordinal - 1) && NeverClosed(s.aliases) && NoSecondEntity(tools.names, s)
    requires Reports(tools, s, out, src, ex)
    ensures NoSecondEntity(tools.names, out.store) && NeverClosed(out.store.aliases)
  {
    hide Built;
    hide CastStored;
    hide StoryStored;
    hide NoSecondEntity;
    var ds, resolved, names :| Says(tools, s, out.store, ex, ds, resolved, names, src.ordinal);
    ChapterKeepsNames(tools, s, out.store, ex.mentions, ds, resolved, src.ordinal);
  }

  lemma NobodyRecurs(n: Names, pin: Option<Pin>)
    ensures NoSecondEntity(n, EmptyStore(pin))
  {
  }

  // ---- Aliases can be read ----

  lemma {:induction false} FreshFormIsListed(n: Names, bs: seq<Bearer>, created: bool, forms: seq<string>, count: nat,
                                             id: nat, j: nat)
    requires j < count <= |forms| && (created || StandsFor(n, bs, n.norm(forms[j]), None))
    ensures Alias(id, forms[j]) in FreshForms(n, bs, created, forms, count, id)
  {
    if j < count - 1 { FreshFormIsListed(n, bs, created, forms, count - 1, id, j); }
  }

  lemma {:induction false} MentionedFormsGrow(n: Names, roster: seq<RosterEntry>, ms: seq<Mention>, ds: seq<Decision>,
                                              resolved: seq<nat>, a: nat, b: nat)
    requires a <= b <= |ms| && b <= |ds| && b <= |resolved|
    ensures MentionedForms(n, roster, ms, ds, resolved, a) <= MentionedForms(n, roster, ms, ds, resolved, b)
  {
    hide FreshForms;
    if a < b { MentionedFormsGrow(n, roster, ms, ds, resolved, a, b - 1); }
  }

  /**
   From its chapter on, an entity is read with every form it was introduced with, and a mentioned one with every
   form that stood for nothing before its mention.
   */
  lemma FormsCanBeRead(tools: Tools, s: Store, t: Store, ms: seq<Mention>, ds: seq<Decision>, resolved: seq<nat>,
                       at: int, i: nat, j: nat, b: int)
    requires at <= b && Built(t, at) && NeverClosed(t.aliases) && CastStored(tools, s, t, ms, ds, resolved, at)
    requires i < |ms| && j < |ms[i].aliases|
    requires ds[i].Create? || StandsFor(tools.names, Bearers(RosterBefore(s, at), ms, resolved, i),
                                        tools.names.norm(ms[i].aliases[j]), None)
    ensures ms[i].aliases[j] in Forms(AliasesOf(t, b, resolved[i]))
  {
    var a := Alias(resolved[i], ms[i].aliases[j]);
    MentionedFormIsStored(tools, s, t, ms, ds, resolved, at, i, j);
    hide CastStored;
    hide StandsFor;
    var row :| 0 <= row < |t.aliases| && t.aliases[row] == NewRow(a, at);
    assert Met(t, t.aliases[row].fact.entity, t.aliases[row].revealedAt);
    FormsAreRead(t, b, resolved[i]);
    assert AliasShown(t, row, b, resolved[i]);
    hide AliasesOf;
  }

  lemma MentionedFormIsStored(tools: Tools, s: Store, t: Store, ms: seq<Mention>, ds: seq<Decision>,
                              resolved: seq<nat>, at: int, i: nat, j: nat)
    requires CastStored(tools, s, t, ms, ds, resolved, at) && i < |ms| && j < |ms[i].aliases|
    requires ds[i].Create? || StandsFor(tools.names, Bearers(RosterBefore(s, at), ms, resolved, i),
                                        tools.names.norm(ms[i].aliases[j]), None)
    ensures exists row :: 0 <= row < |t.aliases| && t.aliases[row] == NewRow(Alias(resolved[i], ms[i].aliases[j]), at)
  {
    hide StandsFor;
    hide ChapterDecided;
    hide ResolvedTo;
    hide Bearers;
    hide MentionedForms;
    hide CreatedEntities;
    hide NewRows;
    var a := Alias(resolved[i], ms[i].aliases[j]);
    MentionedFormIsListed(tools.names, RosterBefore(s, at), ms, ds, resolved, i, j);
    RowOf(s.aliases, t.aliases, MentionedForms(tools.names, RosterBefore(s, at), ms, ds, resolved, |ms|), a, at);
  }

  lemma RowOf<T(!new)>(was: seq<Row<T>>, now: seq<Row<T>>, facts: seq<T>, fact: T, at: int)
    requires now == was + NewRows(facts, at) && fact in facts
    ensures exists row :: 0 <= row < |now| && now[row] == NewRow(fact, at)
  {
    var k :| 0 <= k < |facts| && facts[k] == fact;
    assert now[|was| + k] == NewRow(fact, at);
  }

  lemma MentionedFormIsListed(n: Names, roster: seq<RosterEntry>, ms: seq<Mention>, ds: seq<Decision>,
                              resolved: seq<nat>, i: nat, j: nat)
    requires |ms| == |ds| == |resolved| && i < |ms| && j < |ms[i].aliases|
    requires ds[i].Create? || StandsFor(n, Bearers(roster, ms, resolved, i), n.norm(ms[i].aliases[j]), None)
    ensures Alias(resolved[i], ms[i].aliases[j]) in MentionedForms(n, roster, ms, ds, resolved, |ms|)
  {
    hide StandsFor;
    var forms := ms[i].aliases;
    FreshFormIsListed(n, Bearers(roster, ms, resolved, i), ds[i].Create?, forms, |forms|, resolved[i], j);
    MentionedFormsGrow(n, roster, ms, ds, resolved, i + 1, |ms|);
    hide FreshForms;
    hide Bearers;
    assert Alias(resolved[i], forms[j]) in MentionedForms(n, roster, ms, ds, resolved, i + 1);
    hide MentionedForms;
  }
}
