/**
 What every store built by in-order ingestion satisfies: rows stamped by the last chapter, references
 never ahead of their target, and gap-free, non-overlapping state windows.
 */
module StoreInvariants {
  import opened Wrappers
  import opened StoryMemory
  import opened BookmarkView
  import opened StoryTime

  // ---- Stamps ----

  /** Written in chapters up to `at`, never retracted; a window is non-empty and was closed by `at`. */
  ghost predicate Stamped<T(!new)>(table: seq<Row<T>>, at: int) {
    forall i :: 0 <= i < |table| ==>
      table[i].revealedAt <= at && !table[i].retracted
      && (table[i].invalidAt.Some? ==> table[i].revealedAt < table[i].invalidAt.value <= at)
  }

  ghost predicate NeverClosed<T(!new)>(table: seq<Row<T>>) {
    forall i :: 0 <= i < |table| ==> table[i].invalidAt.None?
  }

  ghost predicate ChapterRowsStamped(s: Store, at: int) {
    && Stamped(s.chapters, at) && Stamped(s.raws, at) && Stamped(s.summaries, at) && Stamped(s.chunks, at)
    && NeverClosed(s.chapters)
  }

  ghost predicate StoryRowsStamped(s: Store, at: int) {
    && Stamped(s.entities, at) && Stamped(s.aliases, at) && Stamped(s.edges, at) && Stamped(s.events, at)
    && Stamped(s.themes, at) && Stamped(s.states, at)
    && NeverClosed(s.entities) && NeverClosed(s.edges)
  }

  ghost predicate AllStamped(s: Store, at: int) {
    ChapterRowsStamped(s, at) && StoryRowsStamped(s, at)
  }

  // ---- References ----

  ghost predicate Met(s: Store, entity: nat, at: int) {
    ValidId(s.entities, entity) && s.entities[entity - 1].revealedAt <= at
  }

  ghost predicate Opened(s: Store, key: string, at: int) {
    exists i :: 0 <= i < |s.chapters| && s.chapters[i].fact.key == key && s.chapters[i].revealedAt <= at
  }

  ghost predicate EntityRefsClosed(s: Store) {
    && (forall i :: 0 <= i < |s.aliases| ==> Met(s, s.aliases[i].fact.entity, s.aliases[i].revealedAt))
    && (forall i :: 0 <= i < |s.states| ==> Met(s, s.states[i].fact.entity, s.states[i].revealedAt))
    && (forall i :: 0 <= i < |s.edges| ==> Met(s, s.edges[i].fact.src, s.edges[i].revealedAt))
    && (forall i :: 0 <= i < |s.edges| ==> Met(s, s.edges[i].fact.dst, s.edges[i].revealedAt))
  }

  ghost predicate LinkRefsClosed(s: Store) {
    forall i :: 0 <= i < |s.links| ==>
      ValidId(s.events, s.links[i].event) && Met(s, s.links[i].entity, s.events[s.links[i].event - 1].revealedAt)
  }

  ghost predicate ChapterRefsClosed(s: Store) {
    && (forall i :: 0 <= i < |s.raws| ==> Opened(s, s.raws[i].fact.chapterKey, s.raws[i].revealedAt))
    && (forall i :: 0 <= i < |s.summaries| ==> Opened(s, s.summaries[i].fact.chapterKey, s.summaries[i].revealedAt))
    && (forall i :: 0 <= i < |s.chunks| ==> Opened(s, s.chunks[i].fact.chapterKey, s.chunks[i].revealedAt))
  }

  /** No fact is revealed before an entity, event or chapter it refers to. */
  ghost predicate RefsClosed(s: Store) {
    EntityRefsClosed(s) && LinkRefsClosed(s) && ChapterRefsClosed(s)
  }

  // ---- State windows ----

  /** Row `i` is a state of `entity` that is valid at `b`. */
  ghost predicate Shows(s: Store, entity: nat, b: int, i: int) {
    0 <= i < |s.states| && s.states[i].fact.entity == entity && VisibleAt(s.states[i], b)
  }

  /** Row `i` is a state of `entity` that had begun by `b`. */
  ghost predicate Begun(s: Store, entity: nat, b: int, i: int) {
    0 <= i < |s.states| && s.states[i].fact.entity == entity && s.states[i].revealedAt <= b
  }

  ghost predicate HasState(s: Store, entity: nat, b: int) {
    exists i :: Shows(s, entity, b, i)
  }

  ghost predicate NoOverlap(s: Store) {
    forall e, b, i, j :: Shows(s, e, b, i) && Shows(s, e, b, j) ==> i == j
  }

  ghost predicate NoGap(s: Store) {
    forall e, b, i :: Begun(s, e, b, i) ==> HasState(s, e, b)
  }

  /** The invariant of a store whose last chapter so far has ordinal `at`. */
  ghost predicate Built(s: Store, at: int) {
    AllStamped(s, at) && RefsClosed(s) && NoOverlap(s) && NoGap(s)
  }

  lemma EmptyBuilt(pin: Option<Pin>, at: int)
    ensures Built(EmptyStore(pin), at)
  {
  }

  lemma BuiltLater(s: Store, at: int, later: int)
    requires Built(s, at) && at <= later
    ensures Built(s, later)
  {
  }

  // ---- Writes that keep it ----

  /** The writes an ingestion makes in chapter `at`, with what it has checked before making them. */
  ghost predicate Fits(s: Store, w: Write, at: int) {
    match w
    case NewChapter(c, o) => o == at && !HasKey(s.chapters, c.key) && !OrdinalTaken(s.chapters, o, None)
    case NewRaw(r, o) => o == at && HasKey(s.chapters, r.chapterKey)
                         && forall i :: 0 <= i < |s.raws| ==> s.raws[i].fact.chapterKey != r.chapterKey
    case NewSummary(m, o) => o == at && HasKey(s.chapters, m.chapterKey)
    case NewEntity(_, o) => o == at
    case NewAlias(a, o) => o == at && ValidId(s.entities, a.entity)
    case NewEdge(e, o, until) => o == at && until.None? && ValidId(s.entities, e.src) && ValidId(s.entities, e.dst)
    case NewEvent(_, o, until) => o == at && until.None?
    case NewLink(l) => ValidId(s.events, l.event) && s.events[l.event - 1].revealedAt == at
                       && ValidId(s.entities, l.entity) && l !in s.links
    case NewTheme(_, o) => o == at
    case NewState(st, o, until) => o == at && until.None? && ValidId(s.entities, st.entity)
                                   && !HasState(s, st.entity, o)
    case ReplaceState(id, o, _) => o == at && ValidId(s.states, id) && s.states[id - 1].revealedAt < o
                                   && VisibleAt(s.states[id - 1], o)
    case NewChunk(c, o) => o == at && HasKey(s.chapters, c.chapterKey)
    case _ => false
  }

  /** Such a write succeeds, is later than every bookmark before `at`, and keeps the invariant. */
  lemma FittingWrite(s: Store, w: Write, at: int)
    requires Built(s, at) && Fits(s, w, at)
    ensures Extends(s, Commit(s, w), at - 1)
    ensures Built(Commit(s, w), at)
  {
    FitsIsLater(s, w, at);
    LaterWriteExtends(s, w, at - 1);
    ChapterStampsKept(s, w, at);
    StoryStampsKept(s, w, at);
    RefsKept(s, w, at);
    WindowsKept(s, w, at);
  }

  /** Only a chunk can still be refused: by the pinned embedding identity. */
  lemma FittingWriteSucceeds(s: Store, w: Write, at: int)
    requires Fits(s, w, at) && !w.NewChunk?
    ensures Apply(s, w).Success?
  {
    if w.NewChapter? { NewKeyIsFree(s, w.chapter.key); }
  }

  lemma FitsIsLater(s: Store, w: Write, at: int)
    requires Fits(s, w, at)
    ensures Later(s, w, at - 1)
  {
    if w.NewChapter? { NewKeyIsFree(s, w.chapter.key); }
  }

  lemma NewKeyIsFree(s: Store, key: string)
    requires !HasKey(s.chapters, key)
    ensures LiveChapter(s.chapters, key).None?
  {
  }

  lemma ChapterStampsKept(s: Store, w: Write, at: int)
    requires Built(s, at) && Fits(s, w, at)
    ensures ChapterRowsStamped(Commit(s, w), at)
  {
    if w.NewChapter? { NewKeyIsFree(s, w.chapter.key); }
  }

  lemma StoryStampsKept(s: Store, w: Write, at: int)
    requires Built(s, at) && Fits(s, w, at)
    ensures StoryRowsStamped(Commit(s, w), at)
  {
    if w.NewChapter? { NewKeyIsFree(s, w.chapter.key); }
  }

  /** Entities, events and chapters only accumulate. */
  ghost predicate TargetsKept(s: Store, t: Store) {
    && (forall e, o :: Met(s, e, o) ==> Met(t, e, o))
    && (forall key, o :: Opened(s, key, o) ==> Opened(t, key, o))
    && |s.events| <= |t.events|
    && (forall i :: 0 <= i < |s.events| ==> t.events[i].revealedAt == s.events[i].revealedAt)
  }

  lemma FittingTargets(s: Store, w: Write, at: int)
    requires Built(s, at) && Fits(s, w, at)
    ensures TargetsKept(s, Commit(s, w))
  {
    var t := Commit(s, w);
    if w.NewChapter? { NewKeyIsFree(s, w.chapter.key); }
    forall key, o | Opened(s, key, o) ensures Opened(t, key, o) {
      var i :| 0 <= i < |s.chapters| && s.chapters[i].fact.key == key && s.chapters[i].revealedAt <= o;
      assert t.chapters[i] == s.chapters[i];
    }
  }

  lemma RefsKept(s: Store, w: Write, at: int)
    requires Built(s, at) && Fits(s, w, at)
    ensures RefsClosed(Commit(s, w))
  {
    FittingTargets(s, w, at);
    EntityRefsKept(s, w, at);
    LinkRefsKept(s, w, at);
    ChapterRefsKept(s, w, at);
  }

  lemma EntityRefsKept(s: Store, w: Write, at: int)
    requires Built(s, at) && Fits(s, w, at) && TargetsKept(s, Commit(s, w))
    ensures EntityRefsClosed(Commit(s, w))
  {
    if w.NewChapter? { NewKeyIsFree(s, w.chapter.key); }
    assert EntityRefsClosed(s);
    hide Built;
    hide HasState;
    hide LiveChapter;
  }

  lemma LinkRefsKept(s: Store, w: Write, at: int)
    requires Built(s, at) && Fits(s, w, at) && TargetsKept(s, Commit(s, w))
    ensures LinkRefsClosed(Commit(s, w))
  {
    if w.NewChapter? { NewKeyIsFree(s, w.chapter.key); }
  }

  lemma ChapterRefsKept(s: Store, w: Write, at: int)
    requires Built(s, at) && Fits(s, w, at) && TargetsKept(s, Commit(s, w))
    ensures ChapterRefsClosed(Commit(s, w))
  {
    if w.NewChapter? { NewKeyIsFree(s, w.chapter.key); }
    forall key | HasKey(s.chapters, key) ensures Opened(s, key, at) {}
    assert ChapterRefsClosed(s);
    hide Built;
    hide HasState;
    hide LiveChapter;
  }

  lemma WindowsKept(s: Store, w: Write, at: int)
    requires Built(s, at) && Fits(s, w, at)
    ensures NoOverlap(Commit(s, w)) && NoGap(Commit(s, w))
  {
    var t := Commit(s, w);
    match w
    case NewState(st, o, _) => OpeningKeepsWindows(s, st, at);
    case ReplaceState(id, o, note) => TurningKeepsWindows(s, id, at, note);
    case _ =>
      assert t.states == s.states;
      SameStatesSameWindows(s, t);
  }

  lemma SameStatesSameWindows(s: Store, t: Store)
    requires t.states == s.states && NoOverlap(s) && NoGap(s)
    ensures NoOverlap(t) && NoGap(t)
  {
    forall e, b, i ensures Shows(t, e, b, i) == Shows(s, e, b, i) && Begun(t, e, b, i) == Begun(s, e, b, i) {}
    forall e, b, i | Begun(t, e, b, i) ensures HasState(t, e, b) {
      assert Begun(s, e, b, i);
      var j :| Shows(s, e, b, j);
      assert Shows(t, e, b, j);
    }
  }

  lemma OpeningKeepsWindows(s: Store, st: State, at: int)
    requires Built(s, at) && ValidId(s.entities, st.entity) && !HasState(s, st.entity, at)
    ensures var t := Commit(s, NewState(st, at, None)); NoOverlap(t) && NoGap(t)
  {
    var t := Commit(s, NewState(st, at, None));
    var n := |s.states|;
    forall i | 0 <= i < n ensures s.states[i].fact.entity != st.entity {
      assert Begun(s, s.states[i].fact.entity, at, i);
    }
    forall e, b, i | i < n ensures Shows(t, e, b, i) == Shows(s, e, b, i) && Begun(t, e, b, i) == Begun(s, e, b, i) {}
    forall e, b, i | Begun(t, e, b, i) ensures HasState(t, e, b) {
      if i < n {
        assert Begun(s, e, b, i);
        var j :| Shows(s, e, b, j);
        assert Shows(t, e, b, j);
      } else {
        assert Shows(t, e, b, n);
      }
    }
    forall e, b, i, j | Shows(t, e, b, i) && Shows(t, e, b, j) ensures i == j {
      if i < n && j < n { assert Shows(s, e, b, i) && Shows(s, e, b, j); }
    }
  }

  /** Row `k` closes at `at` and row `n` opens there: before `at` nothing moves, from `at` on `n` is alone. */
  lemma TurningKeepsWindows(s: Store, id: nat, at: int, note: string)
    requires Built(s, at) && ValidId(s.states, id)
    requires s.states[id - 1].revealedAt < at && VisibleAt(s.states[id - 1], at)
    ensures var t := Commit(s, ReplaceState(id, at, note)); NoOverlap(t) && NoGap(t)
  {
    var t := Commit(s, ReplaceState(id, at, note));
    var k, n, e0 := id - 1, |s.states|, s.states[id - 1].fact.entity;
    assert Shows(s, e0, at, k);
    forall e, b, i | i < n
      ensures Begun(t, e, b, i) == Begun(s, e, b, i)
      ensures b < at || e != e0 ==> Shows(t, e, b, i) == Shows(s, e, b, i)
      ensures b >= at && e == e0 ==> !Shows(t, e, b, i)
    {
      assert b >= at && e == e0 && Shows(t, e, b, i) ==> Shows(s, e0, at, i);
    }
    forall e, b, i | Begun(t, e, b, i) ensures HasState(t, e, b) {
      if b >= at && e == e0 { assert Shows(t, e, b, n); }
      else {
        assert Begun(s, e, b, i);
        var j :| Shows(s, e, b, j);
        assert Shows(t, e, b, j);
      }
    }
    forall e, b, i, j | Shows(t, e, b, i) && Shows(t, e, b, j) ensures i == j {
      if i < n && j < n { assert Shows(s, e, b, i) && Shows(s, e, b, j); }
    }
  }

  // ---- What the reads return on such a store ----

  /** `current_state` is the one valid state of a met entity, or none when it has no state yet. */
  lemma CurrentStateIsTheState(s: Store, entity: nat, b: int)
    requires NoOverlap(s)
    ensures CurrentState(s, b, entity).Some? <==> EntityVisible(s, b, entity) && HasState(s, entity, b)
    ensures forall i :: Shows(s, entity, b, i) && EntityVisible(s, b, entity)
              ==> CurrentState(s, b, entity) == Some(Hit(i + 1, s.states[i].revealedAt, s.states[i].fact))
    ensures CurrentState(s, b, entity).Some? ==> Shows(s, entity, b, CurrentState(s, b, entity).value.id - 1)
  {
    hide Select;
    hide OrderBy;
    var hits := Select(s.states, b, StateOf(s, b, entity));
    SelectMembers(s.states, b, StateOf(s, b, entity));
    OrderByMembers(hits, Newest());
    var cur := CurrentState(s, b, entity);
    if cur.Some? {
      assert cur.value in OrderBy(hits, Newest());
      assert cur.value in hits;
      assert Shows(s, entity, b, cur.value.id - 1);
    }
    forall i | Shows(s, entity, b, i) && EntityVisible(s, b, entity)
      ensures cur == Some(Hit(i + 1, s.states[i].revealedAt, s.states[i].fact))
    {
      assert Hit(i + 1, s.states[i].revealedAt, s.states[i].fact) in hits;
    }
  }
}
