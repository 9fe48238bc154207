/**
 Story-time non-interference of the store: writes stamped after a bookmark change no read at it, with one
 exception. `relationships` selects the closing chapter of an edge, and when that shows is stated exactly.
 */
module StoryTime {
  import opened Wrappers
  import opened StoryMemory
  import opened BookmarkView

  // ---- Growth after a bookmark ----

  /** `u` is `t` with rows added after `b`, and windows that were open at `b` still open at `b`. */
  ghost predicate Grows<T(!new)>(t: seq<Row<T>>, u: seq<Row<T>>, b: int) {
    && |t| <= |u|
    && (forall i :: 0 <= i < |t| ==> SameAt(t[i], u[i], b))
    && (forall i :: |t| <= i < |u| ==> u[i].revealedAt > b)
  }

  ghost predicate SameAt<T(!new)>(r: Row<T>, q: Row<T>, b: int) {
    && q.fact == r.fact && q.revealedAt == r.revealedAt && q.retracted == r.retracted
    && (q.invalidAt == r.invalidAt || (OpenAt(q.invalidAt, b) && OpenAt(r.invalidAt, b)))
  }

  ghost predicate EventLater(s: Store, id: nat, b: int) {
    ValidId(s.events, id) ==> s.events[id - 1].revealedAt > b
  }

  /** New cast links belong to events of chapters after `b`. */
  ghost predicate LinksGrow(s: Store, t: Store, b: int) {
    && |s.links| <= |t.links|
    && (forall i :: 0 <= i < |s.links| ==> t.links[i] == s.links[i])
    && (forall i :: |s.links| <= i < |t.links| ==> EventLater(t, t.links[i].event, b))
  }

  ghost predicate Extends(s: Store, t: Store, b: int) {
    && t.pin == s.pin
    && Grows(s.chapters, t.chapters, b) && Grows(s.raws, t.raws, b) && Grows(s.summaries, t.summaries, b)
    && Grows(s.entities, t.entities, b) && Grows(s.aliases, t.aliases, b) && Grows(s.edges, t.edges, b)
    && Grows(s.events, t.events, b) && Grows(s.themes, t.themes, b) && Grows(s.states, t.states, b)
    && Grows(s.chunks, t.chunks, b) && LinksGrow(s, t, b)
  }

  lemma ExtendsTransitive(s: Store, t: Store, u: Store, b: int)
    requires Extends(s, t, b) && Extends(t, u, b)
    ensures Extends(s, u, b)
  {
    GrowsTransitive(s.chapters, t.chapters, u.chapters, b);
    GrowsTransitive(s.raws, t.raws, u.raws, b);
    GrowsTransitive(s.summaries, t.summaries, u.summaries, b);
    GrowsTransitive(s.entities, t.entities, u.entities, b);
    GrowsTransitive(s.aliases, t.aliases, u.aliases, b);
    GrowsTransitive(s.edges, t.edges, u.edges, b);
    GrowsTransitive(s.events, t.events, u.events, b);
    GrowsTransitive(s.themes, t.themes, u.themes, b);
    GrowsTransitive(s.states, t.states, u.states, b);
    GrowsTransitive(s.chunks, t.chunks, u.chunks, b);
    LinksGrowTransitive(s, t, u, b);
  }

  lemma GrowsTransitive<T(!new)>(t: seq<Row<T>>, u: seq<Row<T>>, v: seq<Row<T>>, b: int)
    requires Grows(t, u, b) && Grows(u, v, b)
    ensures Grows(t, v, b)
  {
    forall i | 0 <= i < |t| ensures SameAt(t[i], v[i], b) {
      assert SameAt(t[i], u[i], b) && SameAt(u[i], v[i], b);
    }
    forall i | |t| <= i < |v| ensures v[i].revealedAt > b {
      if i < |u| { assert SameAt(u[i], v[i], b); }
    }
  }

  lemma LinksGrowTransitive(s: Store, t: Store, u: Store, b: int)
    requires LinksGrow(s, t, b) && LinksGrow(t, u, b) && Grows(t.events, u.events, b)
    ensures LinksGrow(s, u, b)
  {
    forall i | |s.links| <= i < |u.links| ensures EventLater(u, u.links[i].event, b) {
      if i < |t.links| {
        var id := u.links[i].event;
        assert u.links[i] == t.links[i] && EventLater(t, id, b);
        if ValidId(t.events, id) { assert SameAt(t.events[id - 1], u.events[id - 1], b); }
      }
    }
  }

  // ---- One write ----

  /** A write of a chapter after `b` that reopens nothing closed by `b` and restamps no chapter. */
  ghost predicate Later(s: Store, w: Write, b: int) {
    match w
    case NewChapter(c, at) => at > b && LiveChapter(s.chapters, c.key).None?
    case NewRaw(_, at) => at > b
    case NewSummary(_, at) => at > b
    case NewEntity(_, at) => at > b
    case NewAlias(_, at) => at > b
    case NewEdge(_, at, _) => at > b
    case ReplaceEdge(id, at, _, _) => at > b && StillOpen(s.edges, id, b)
    case EndEdge(id, at) => at > b && StillOpen(s.edges, id, b)
    case NewEvent(_, at, _) => at > b
    case NewLink(l) => EventLater(s, l.event, b)
    case EndEvent(id, at) => at > b && StillOpen(s.events, id, b)
    case NewTheme(_, at) => at > b
    case NewState(_, at, _) => at > b
    case ReplaceState(id, at, _) => at > b && StillOpen(s.states, id, b)
    case NewChunk(_, at) => at > b
  }

  ghost predicate StillOpen<T(!new)>(table: seq<Row<T>>, id: nat, b: int) {
    ValidId(table, id) ==> OpenAt(table[id - 1].invalidAt, b)
  }

  lemma LaterWriteExtends(s: Store, w: Write, b: int)
    requires Later(s, w, b)
    ensures Extends(s, Commit(s, w), b)
  {
    match w
    case ReplaceEdge(_, _, _, _) => LaterTurnExtends(s, w, b);
    case EndEdge(_, _) => LaterTurnExtends(s, w, b);
    case EndEvent(_, _) => LaterTurnExtends(s, w, b);
    case ReplaceState(_, _, _) => LaterTurnExtends(s, w, b);
    case NewLink(_) => StoreGrows(s, b);
    case NewChunk(c, at) => ChunkGrows(s, c, at, b);
    case NewChapter(_, _) => LaterTextExtends(s, w, b);
    case NewRaw(_, _) => LaterTextExtends(s, w, b);
    case NewSummary(_, _) => LaterTextExtends(s, w, b);
    case _ => LaterFactExtends(s, w, b);
  }

  /** A row of a chapter's own tables. */
  lemma LaterTextExtends(s: Store, w: Write, b: int)
    requires Later(s, w, b) && (w.NewChapter? || w.NewRaw? || w.NewSummary?)
    ensures Extends(s, Commit(s, w), b)
  {
    StoreGrows(s, b);
    match w
    case NewChapter(c, at) => InsertGrows(s.chapters, c, at, None, b);
    case NewRaw(r, at) => InsertGrows(s.raws, r, at, None, b);
    case NewSummary(m, at) => InsertGrows(s.summaries, m, at, None, b);
  }

  /** A new fact of the story. */
  lemma LaterFactExtends(s: Store, w: Write, b: int)
    requires Later(s, w, b)
    requires w.NewEntity? || w.NewAlias? || w.NewEdge? || w.NewEvent? || w.NewTheme? || w.NewState?
    ensures Extends(s, Commit(s, w), b)
  {
    StoreGrows(s, b);
    match w
    case NewEntity(e, at) => InsertGrows(s.entities, e, at, None, b);
    case NewAlias(a, at) => InsertGrows(s.aliases, a, at, None, b);
    case NewEdge(e, at, until) => InsertGrows(s.edges, e, at, until, b);
    case NewEvent(e, at, until) => InsertGrows(s.events, e, at, until, b);
    case NewTheme(t, at) => InsertGrows(s.themes, t, at, None, b);
    case NewState(st, at, until) => InsertGrows(s.states, st, at, until, b);
  }

  /** The end of a window, with or without a successor. */
  lemma LaterTurnExtends(s: Store, w: Write, b: int)
    requires Later(s, w, b) && (w.ReplaceEdge? || w.EndEdge? || w.EndEvent? || w.ReplaceState?)
    ensures Extends(s, Commit(s, w), b)
  {
    StoreGrows(s, b);
    match w
    case ReplaceEdge(id, at, _, _) => ReplaceGrows(s.edges, id, at, b);
    case EndEdge(id, at) => ReplaceGrows(s.edges, id, at, b);
    case EndEvent(id, at) => ReplaceGrows(s.events, id, at, b);
    case ReplaceState(id, at, _) => ReplaceGrows(s.states, id, at, b);
  }

  lemma StoreGrows(s: Store, b: int)
    ensures Extends(s, s, b)
  {
  }

  lemma InsertGrows<T(!new)>(t: seq<Row<T>>, fact: T, at: int, until: Option<int>, b: int)
    requires at > b
    ensures Grows(t, Insert(t, fact, at, until), b)
  {
  }

  lemma ReplaceGrows<T(!new)>(t: seq<Row<T>>, id: nat, at: int, b: int)
    requires at > b && StillOpen(t, id, b)
    ensures ValidId(t, id) ==> Grows(t, Close(t, id, at), b)
    ensures ValidId(t, id) ==> forall fact :: Grows(t, Insert(Close(t, id, at), fact, at, None), b)
  {
    if ValidId(t, id) {
      var closed := Close(t, id, at);
      assert Grows(t, closed, b);
      forall fact ensures Grows(t, Insert(closed, fact, at, None), b) {
        InsertGrows(closed, fact, at, None, b);
        GrowsTransitive(t, closed, Insert(closed, fact, at, None), b);
      }
    }
  }

  lemma ChunkGrows(s: Store, c: Chunk, at: int, b: int)
    requires at > b
    ensures Extends(s, Commit(s, NewChunk(c, at)), b)
  {
    InsertGrows(s.chunks, c, at, None, b);
    if s.pin.Some? { InsertGrows(s.chunks, c.(model := Some(s.pin.value.model)), at, None, b); }
    StoreGrows(s, b);
  }

  // ---- Reads ----

  /** Rows grown after `b` and conditions that agree on what `b` shows select the same hits. */
  lemma {:induction false} SelectGrows<T(!new)>(t: seq<Row<T>>, u: seq<Row<T>>, b: int,
                                          where: (nat, T) -> bool, also: (nat, T) -> bool)
    requires Grows(t, u, b)
    requires forall i :: 0 <= i < |t| && VisibleAt(t[i], b) ==> where(i + 1, t[i].fact) == also(i + 1, t[i].fact)
    ensures Select(t, b, where) == Select(u, b, also)
    decreases |u|
  {
    if |u| > |t| {
      assert u[|u| - 1].revealedAt > b;
      SelectGrows(t, u[..|u| - 1], b, where, also);
    } else if |t| > 0 {
      var n := |t| - 1;
      assert SameAt(t[n], u[n], b);
      assert Grows(t[..n], u[..n], b) by {
        forall i | 0 <= i < n ensures SameAt(t[..n][i], u[..n][i], b) { assert SameAt(t[i], u[i], b); }
      }
      SelectGrows(t[..n], u[..n], b, where, also);
    }
  }

  lemma EntityVisibleGrows(s: Store, t: Store, b: int, id: nat)
    requires Extends(s, t, b)
    ensures EntityVisible(s, b, id) == EntityVisible(t, b, id)
  {
    if ValidId(s.entities, id) { assert SameAt(s.entities[id - 1], t.entities[id - 1], b); }
  }

  lemma EventVisibleGrows(s: Store, t: Store, b: int, id: nat)
    requires Extends(s, t, b)
    ensures EventVisible(s, b, id) == EventVisible(t, b, id)
  {
    if ValidId(s.events, id) { assert SameAt(s.events[id - 1], t.events[id - 1], b); }
  }

  lemma ChapterLiveGrows(s: Store, t: Store, b: int, key: string)
    requires Extends(s, t, b)
    ensures ChapterLive(s, b, key) == ChapterLive(t, b, key)
  {
    if ChapterLive(s, b, key) {
      var i :| 0 <= i < |s.chapters| && s.chapters[i].fact.key == key && VisibleAt(s.chapters[i], b);
      assert SameAt(s.chapters[i], t.chapters[i], b);
    }
    if ChapterLive(t, b, key) {
      var i :| 0 <= i < |t.chapters| && t.chapters[i].fact.key == key && VisibleAt(t.chapters[i], b);
      assert i < |s.chapters|;
      assert SameAt(s.chapters[i], t.chapters[i], b);
    }
  }

  /** The cast link of an event shown at `b` is in both stores or in neither. */
  lemma LinkGrows(s: Store, t: Store, b: int, l: Link)
    requires Extends(s, t, b) && EventVisible(s, b, l.event)
    ensures (l in s.links) == (l in t.links)
  {
    EventVisibleGrows(s, t, b, l.event);
    if l in s.links {
      var i :| 0 <= i < |s.links| && s.links[i] == l;
      assert t.links[i] == l;
    }
    if l in t.links {
      var i :| 0 <= i < |t.links| && t.links[i] == l;
      assert i >= |s.links| ==> EventLater(t, l.event, b);
      assert s.links[i] == l;
    }
  }

  lemma CastGrows(s: Store, t: Store, b: int, event: nat)
    requires Extends(s, t, b)
    ensures ParticipantsOf(s, b, event) == ParticipantsOf(t, b, event)
  {
    EventVisibleGrows(s, t, b, event);
    forall i | 0 <= i < |s.entities|
      ensures InCast(s, b, event)(i + 1, s.entities[i].fact) == InCast(t, b, event)(i + 1, s.entities[i].fact)
    {
      if EventVisible(s, b, event) { LinkGrows(s, t, b, Link(event, i + 1)); }
    }
    SelectGrows(s.entities, t.entities, b, InCast(s, b, event), InCast(t, b, event));
  }

  lemma AttendanceGrows(s: Store, t: Store, b: int, entity: nat)
    requires Extends(s, t, b)
    ensures EventsFor(s, b, entity) == EventsFor(t, b, entity)
  {
    EntityVisibleGrows(s, t, b, entity);
    forall i | 0 <= i < |s.events| && VisibleAt(s.events[i], b)
      ensures Attended(s, b, entity)(i + 1, s.events[i].fact) == Attended(t, b, entity)(i + 1, s.events[i].fact)
    {
      assert EventVisible(s, b, i + 1);
      LinkGrows(s, t, b, Link(i + 1, entity));
    }
    SelectGrows(s.events, t.events, b, Attended(s, b, entity), Attended(t, b, entity));
  }

  lemma EntityReadsGrow(s: Store, t: Store, b: int, entity: nat)
    requires Extends(s, t, b)
    ensures AliasesOf(s, b, entity) == AliasesOf(t, b, entity)
    ensures CurrentState(s, b, entity) == CurrentState(t, b, entity)
    ensures Bio(s, b, entity) == Bio(t, b, entity)
  {
    EntityVisibleGrows(s, t, b, entity);
    SelectGrows(s.aliases, t.aliases, b, AliasOf(s, b, entity), AliasOf(t, b, entity));
    SelectGrows(s.states, t.states, b, StateOf(s, b, entity), StateOf(t, b, entity));
    SelectGrows(s.entities, t.entities, b, WithId(entity), WithId(entity));
    AttendanceGrows(s, t, b, entity);
  }

  lemma KindReadsGrow(s: Store, t: Store, b: int, kind: EntityKind)
    requires Extends(s, t, b)
    ensures EntitiesOfType(s, b, kind) == EntitiesOfType(t, b, kind)
  {
    SelectGrows(s.entities, t.entities, b, OfKind(kind), OfKind(kind));
  }

  lemma ChapterReadsGrow(s: Store, t: Store, b: int)
    requires Extends(s, t, b)
    ensures Chapters(s, b) == Chapters(t, b)
    ensures ChapterSummaries(s, b) == ChapterSummaries(t, b)
    ensures CatchMeUp(s, b) == CatchMeUp(t, b)
    ensures EdgeHits(s, b) == EdgeHits(t, b)
    ensures Timeline(s, b) == Timeline(t, b)
    ensures Themes(s, b) == Themes(t, b)
  {
    forall key ensures ChapterLive(s, b, key) == ChapterLive(t, b, key) { ChapterLiveGrows(s, t, b, key); }
    forall id: nat ensures EntityVisible(s, b, id) == EntityVisible(t, b, id) { EntityVisibleGrows(s, t, b, id); }
    SelectGrows(s.chapters, t.chapters, b, Any(), Any());
    SelectGrows(s.summaries, t.summaries, b, ChapterRecap(s, b), ChapterRecap(t, b));
    SelectGrows(s.summaries, t.summaries, b, Rolling(), Rolling());
    SelectGrows(s.edges, t.edges, b, EndsVisible(s, b), EndsVisible(t, b));
    SelectGrows(s.events, t.events, b, Any(), Any());
    SelectGrows(s.themes, t.themes, b, Any(), Any());
    KindReadsGrow(s, t, b, Character);
  }

  lemma RawReadGrows(s: Store, t: Store, b: int, key: string)
    requires Extends(s, t, b)
    ensures ReadRaw(s, b, key) == ReadRaw(t, b, key)
  {
    ChapterLiveGrows(s, t, b, key);
    SelectGrows(s.raws, t.raws, b, RawOf(s, b, key), RawOf(t, b, key));
  }

  lemma SearchGrows(s: Store, t: Store, b: int, cosine: (seq<real>, seq<real>) -> real,
                    query: seq<real>, k: nat, asked: Option<string>)
    requires Extends(s, t, b)
    ensures Search(s, b, cosine, query, k, asked) == Search(t, b, cosine, query, k, asked)
  {
    forall key ensures ChapterLive(s, b, key) == ChapterLive(t, b, key) { ChapterLiveGrows(s, t, b, key); }
    var model := if asked.Some? then asked else if s.pin.Some? then Some(s.pin.value.model) else None;
    SelectGrows(s.chunks, t.chunks, b, Comparable(s, b, query, model), Comparable(t, b, query, model));
  }

  // ---- What the reads return ----

  /** What the funnel returns: exactly the visible rows that meet the read's condition. */
  lemma {:induction false} SelectMembers<T(!new)>(t: seq<Row<T>>, b: int, where: (nat, T) -> bool)
    ensures forall h :: h in Select(t, b, where) <==>
              ValidId(t, h.id) && h == Hit(h.id, t[h.id - 1].revealedAt, t[h.id - 1].fact)
              && VisibleAt(t[h.id - 1], b) && where(h.id, h.fact)
  {
    if |t| > 0 {
      var n := |t| - 1;
      SelectMembers(t[..n], b, where);
      assert forall i :: 0 <= i < n ==> t[..n][i] == t[i];
    }
  }

  lemma {:induction false} SelectPointwise<T(!new)>(t: seq<Row<T>>, u: seq<Row<T>>, b: int,
                                              where: (nat, T) -> bool, also: (nat, T) -> bool)
    requires |t| == |u|
    requires forall i :: 0 <= i < |t| ==> u[i].fact == t[i].fact && u[i].revealedAt == t[i].revealedAt
    requires forall i :: 0 <= i < |t| ==>
               (VisibleAt(t[i], b) && where(i + 1, t[i].fact)) == (VisibleAt(u[i], b) && also(i + 1, u[i].fact))
    ensures Select(t, b, where) == Select(u, b, also)
  {
    if |t| > 0 {
      var n := |t| - 1;
      SelectPointwise(t[..n], u[..n], b, where, also);
    }
  }

  lemma {:induction false} OrderByMembers<C(!new)>(xs: seq<C>, before: (C, C) -> bool)
    ensures multiset(OrderBy(xs, before)) == multiset(xs)
    ensures forall x :: x in OrderBy(xs, before) <==> x in xs
  {
    if xs != [] {
      var n := |xs| - 1;
      OrderByMembers(xs[..n], before);
      PlaceMembers(xs[n], OrderBy(xs[..n], before), before);
      assert xs == xs[..n] + [xs[n]];
    }
    forall x ensures x in OrderBy(xs, before) <==> x in xs {
      assert x in OrderBy(xs, before) <==> x in multiset(OrderBy(xs, before));
    }
  }

  lemma {:induction false} PlaceMembers<C(!new)>(x: C, xs: seq<C>, before: (C, C) -> bool)
    ensures multiset(PlaceInOrder(x, xs, before)) == multiset(xs) + multiset{x}
  {
    if xs != [] {
      assert xs == [xs[0]] + xs[1..];
      PlaceMembers(x, xs[1..], before);
    }
  }

  // ---- The closing chapter of an edge ----

  /** The edge belongs to what a reader at `b` may see, its window aside. */
  predicate EdgeMet(s: Store, id: nat, b: int) {
    ValidId(s.edges, id) && s.edges[id - 1].revealedAt <= b && !s.edges[id - 1].retracted
    && EntityVisible(s, b, s.edges[id - 1].fact.src) && EntityVisible(s, b, s.edges[id - 1].fact.dst)
  }

  predicate EdgeShown(s: Store, id: nat, b: int) {
    EdgeMet(s, id, b) && OpenAt(s.edges[id - 1].invalidAt, b)
  }

  /** The edges a reader is shown: met, and open at the bookmark. */
  lemma EdgeHitMembers(s: Store, b: int, id: nat)
    ensures (exists h :: h in EdgeHits(s, b) && h.id == id)
            <==> EdgeShown(s, id, b)
  {
    hide Select;
    hide OrderBy;
    var hits := Select(s.edges, b, EndsVisible(s, b));
    SelectMembers(s.edges, b, EndsVisible(s, b));
    OrderByMembers(hits, Oldest());
    if EdgeShown(s, id, b) {
      var h := Hit(id, s.edges[id - 1].revealedAt, s.edges[id - 1].fact);
      assert h in hits && h in EdgeHits(s, b);
    }
  }

  /** Every edge shown at `b` has the same end in both stores. */
  ghost predicate SameEnds(s: Store, t: Store, b: int) {
    forall id: nat :: EdgeShown(s, id, b) && ValidId(t.edges, id) ==>
      t.edges[id - 1].invalidAt == s.edges[id - 1].invalidAt
  }

  /** Where the same edges are shown, `relationships` is the same exactly when their ends are. */
  lemma WindowsExactly(s: Store, t: Store, b: int)
    requires EdgeHits(s, b) == EdgeHits(t, b) && |s.edges| <= |t.edges|
    ensures Relationships(t, b) == Relationships(s, b) <==> SameEnds(s, t, b)
  {
    var hits := EdgeHits(s, b);
    if SameEnds(s, t, b) {
      forall k | 0 <= k < |hits| ensures Windows(t, hits)[k] == Windows(s, hits)[k] {
        assert hits[k] in hits;
        EdgeHitMembers(s, b, hits[k].id);
      }
      assert Windows(t, hits) == Windows(s, hits);
    } else {
      var id: nat :| EdgeShown(s, id, b) && t.edges[id - 1].invalidAt != s.edges[id - 1].invalidAt;
      EdgeHitMembers(s, b, id);
      var k :| 0 <= k < |hits| && hits[k].id == id;
      assert Windows(t, hits)[k] != Windows(s, hits)[k];
    }
  }

  /**
   A store grown after `b` answers every read at `b` as before, except that `relationships` shows it when a
   shown edge has another end.
   */
  lemma ExtensionSameView(s: Store, t: Store, b: int, cosine: (seq<real>, seq<real>) -> real)
    requires Extends(s, t, b)
    ensures SameView(s, t, b, cosine)
    ensures Relationships(t, b) == Relationships(s, b) <==> SameEnds(s, t, b)
  {
    ChapterReadsGrow(s, t, b);
    WindowsExactly(s, t, b);
    forall kind ensures EntitiesOfType(s, b, kind) == EntitiesOfType(t, b, kind) { KindReadsGrow(s, t, b, kind); }
    assert Characters(s, b) == Characters(t, b);
    forall e: nat
      ensures AliasesOf(s, b, e) == AliasesOf(t, b, e) && CurrentState(s, b, e) == CurrentState(t, b, e)
      ensures Bio(s, b, e) == Bio(t, b, e)
    { EntityReadsGrow(s, t, b, e); }
    forall e: nat ensures ParticipantsOf(s, b, e) == ParticipantsOf(t, b, e) { CastGrows(s, t, b, e); }
    forall e: nat ensures EventsFor(s, b, e) == EventsFor(t, b, e) { AttendanceGrows(s, t, b, e); }
    forall key ensures ReadRaw(s, b, key) == ReadRaw(t, b, key) { RawReadGrows(s, t, b, key); }
    forall q, k: nat, m ensures Search(s, b, cosine, q, k, m) == Search(t, b, cosine, q, k, m) {
      SearchGrows(s, t, b, cosine, q, k, m);
    }
  }

  // ---- Any sequence of writes ----

  function CommitAll(s: Store, ws: seq<Write>): Store
    decreases |ws|
  {
    if ws == [] then s else CommitAll(Commit(s, ws[0]), ws[1..])
  }

  /** Every write of the sequence is later than `b` in the store it meets. */
  ghost predicate AllLater(s: Store, ws: seq<Write>, b: int)
    decreases |ws|
  {
    ws == [] || (Later(s, ws[0], b) && AllLater(Commit(s, ws[0]), ws[1..], b))
  }

  /** Two-run non-interference for every sequence of story-time writes, not only the pipeline's. */
  lemma {:induction false} LaterWritesExtend(s: Store, ws: seq<Write>, b: int)
    requires AllLater(s, ws, b)
    ensures Extends(s, CommitAll(s, ws), b)
    decreases |ws|
  {
    if ws != [] {
      LaterWriteExtends(s, ws[0], b);
      LaterWritesExtend(Commit(s, ws[0]), ws[1..], b);
      ExtendsTransitive(s, Commit(s, ws[0]), CommitAll(s, ws), b);
    }
  }

  function EndAfter(w: Write, id: nat, end: Option<int>): Option<int> {
    match w
    case EndEdge(i, at) => if i == id then Some(at) else end
    case ReplaceEdge(i, at, _, _) => if i == id then Some(at) else end
    case _ => end
  }

  /** The end that the last write to end an edge gives it. */
  function FinalEnd(ws: seq<Write>, id: nat, end: Option<int>): Option<int> {
    if ws == [] then end else FinalEnd(ws[1..], id, EndAfter(ws[0], id, end))
  }

  lemma EndIsStored(s: Store, w: Write, b: int, id: nat)
    requires Later(s, w, b) && ValidId(s.edges, id) && s.edges[id - 1].revealedAt <= b
    ensures var t := Commit(s, w);
            && ValidId(t.edges, id) && t.edges[id - 1].revealedAt == s.edges[id - 1].revealedAt
            && t.edges[id - 1].invalidAt == EndAfter(w, id, s.edges[id - 1].invalidAt)
  {
  }

  lemma {:induction false} FinalEndIsStored(s: Store, ws: seq<Write>, b: int, id: nat)
    requires AllLater(s, ws, b) && ValidId(s.edges, id) && s.edges[id - 1].revealedAt <= b
    ensures var t := CommitAll(s, ws);
            ValidId(t.edges, id) && t.edges[id - 1].invalidAt == FinalEnd(ws, id, s.edges[id - 1].invalidAt)
    decreases |ws|
  {
    if ws != [] {
      EndIsStored(s, ws[0], b, id);
      FinalEndIsStored(Commit(s, ws[0]), ws[1..], b, id);
    }
  }

  /** No edge shown at `b` gets another end in the course of the writes. */
  ghost predicate EndsKept(s: Store, ws: seq<Write>, b: int) {
    forall id: nat :: EdgeShown(s, id, b) ==>
      FinalEnd(ws, id, s.edges[id - 1].invalidAt) == s.edges[id - 1].invalidAt
  }

  /**
   Whatever is written after `b`, every read at `b` answers as before; `relationships`, which selects the end
   of an edge, does exactly when no edge it shows gets another end.
   */
  lemma LaterWritesInvisible(s: Store, ws: seq<Write>, b: int, cosine: (seq<real>, seq<real>) -> real)
    requires AllLater(s, ws, b)
    ensures SameView(s, CommitAll(s, ws), b, cosine)
    ensures Relationships(CommitAll(s, ws), b) == Relationships(s, b) <==> EndsKept(s, ws, b)
  {
    LaterWritesExtend(s, ws, b);
    ExtensionSameView(s, CommitAll(s, ws), b, cosine);
    hide SameView;
    hide Extends;
    hide Relationships;
    forall id: nat | EdgeShown(s, id, b)
      ensures ValidId(CommitAll(s, ws).edges, id)
      ensures CommitAll(s, ws).edges[id - 1].invalidAt == FinalEnd(ws, id, s.edges[id - 1].invalidAt)
    {
      FinalEndIsStored(s, ws, b, id);
    }
  }

  // ---- One ended edge ----

  /** The write ends the edge at `at`, with or without a successor. */
  predicate EndsEdge(w: Write, id: nat, at: int) {
    match w
    case EndEdge(i, end) => i == id && end == at
    case ReplaceEdge(i, end, _, _) => i == id && end == at
    case _ => false
  }

  /**
   Ending or replacing an edge in a later chapter leaves a reader's relationships as they were exactly when
   the reader has not met the edge, or it already ended there.
   */
  lemma EndedEdgeUnseen(s: Store, w: Write, id: nat, at: int, b: int)
    requires EndsEdge(w, id, at) && ValidId(s.edges, id) && at > b && at > s.edges[id - 1].revealedAt
    ensures Relationships(Commit(s, w), b) == Relationships(s, b)
            <==> !EdgeMet(s, id, b) || s.edges[id - 1].invalidAt == Some(at)
  {
    var closed := s.(edges := Close(s.edges, id, at));
    ClosedEdgeUnseen(s, id, at, b);
    if w.ReplaceEdge? { SuccessorUnseen(closed, Commit(s, w), b); }
    hide Relationships;
  }

  lemma ClosedEdgeUnseen(s: Store, id: nat, at: int, b: int)
    requires ValidId(s.edges, id) && at > b
    ensures Relationships(s.(edges := Close(s.edges, id, at)), b) == Relationships(s, b)
            <==> !EdgeMet(s, id, b) || s.edges[id - 1].invalidAt == Some(at)
  {
    var t := s.(edges := Close(s.edges, id, at));
    EdgeHitMembers(s, b, id);
    EdgeHitMembers(t, b, id);
    if !EdgeMet(s, id, b) || EdgeShown(s, id, b) {
      SelectPointwise(s.edges, t.edges, b, EndsVisible(s, b), EndsVisible(t, b));
      WindowsExactly(s, t, b);
      hide Relationships;
      assert EdgeShown(s, id, b) ==> (SameEnds(s, t, b) <==> s.edges[id - 1].invalidAt == Some(at));
    } else {
      assert EdgeHits(t, b) != EdgeHits(s, b);
    }
  }

  /** An edge revealed after `b` is not shown at it. */
  lemma SuccessorUnseen(s: Store, t: Store, b: int)
    requires t.entities == s.entities && |t.edges| == |s.edges| + 1 && t.edges[..|s.edges|] == s.edges
    requires t.edges[|s.edges|].revealedAt > b
    ensures Relationships(t, b) == Relationships(s, b)
  {
    assert Grows(s.edges, t.edges, b) by {
      forall i | 0 <= i < |s.edges| ensures SameAt(s.edges[i], t.edges[i], b) {
        assert t.edges[..|s.edges|][i] == t.edges[i];
      }
    }
    SelectGrows(s.edges, t.edges, b, EndsVisible(s, b), EndsVisible(t, b));
    WindowsExactly(s, t, b);
    forall id: nat | EdgeShown(s, id, b) ensures t.edges[id - 1] == s.edges[id - 1] {
      assert t.edges[..|s.edges|][id - 1] == t.edges[id - 1];
    }
  }
}
