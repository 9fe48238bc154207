/**
 What each read lists and in which order, for every store: exactly the rows that may be seen and meet the read's
 condition, once each, sorted by the columns that its query names; and what a search returns.
 */
module ReadOrder {
  import opened Wrappers
  import opened StoryMemory
  import opened BookmarkView
  import opened StoryTime

  // ---- Sorting ----

  ghost predicate StrictWeak<C(!new)>(before: (C, C) -> bool) {
    && (forall x, y :: before(x, y) ==> !before(y, x))
    && (forall x, y, z :: before(x, z) ==> before(x, y) || before(y, z))
  }

  /** `ys` lists `xs` in order: `from` are the positions of its elements in `xs`, and ties keep theirs. */
  ghost predicate SortedFrom<C(!new)>(xs: seq<C>, ys: seq<C>, before: (C, C) -> bool, from: seq<int>) {
    TakenFrom(xs, ys, from) && InOrderFrom(ys, before, from)
  }

  ghost predicate TakenFrom<C(!new)>(xs: seq<C>, ys: seq<C>, from: seq<int>) {
    && |from| == |ys| == |xs|
    && (forall k :: 0 <= k < |ys| ==> 0 <= from[k] < |xs| && ys[k] == xs[from[k]])
    && (forall j, k :: 0 <= j < k < |from| ==> from[j] != from[k])
  }

  ghost predicate InOrderFrom<C(!new)>(ys: seq<C>, before: (C, C) -> bool, from: seq<int>) {
    |from| == |ys| && forall j, k :: 0 <= j < k < |ys| ==> InTurn(before, ys[j], from[j], ys[k], from[k])
  }

  /** `x` from position `i` may stand in front of `y`: it does not come after it, and ties are in order of position. */
  ghost predicate InTurn<C(!new)>(before: (C, C) -> bool, x: C, i: int, y: C, j: int) {
    !before(y, x) && (before(x, y) || i < j)
  }

  /** An element is placed in front of the first one that it comes before. */
  lemma {:induction false} PlacedAt<C(!new)>(x: C, xs: seq<C>, before: (C, C) -> bool) returns (p: nat)
    ensures p <= |xs| && PlaceInOrder(x, xs, before) == xs[..p] + [x] + xs[p..]
    ensures forall i :: 0 <= i < p ==> !before(x, xs[i])
    ensures p < |xs| ==> before(x, xs[p])
  {
    if xs == [] || before(x, xs[0]) {
      p := 0;
    } else {
      var q := PlacedAt(x, xs[1..], before);
      p := q + 1;
      assert xs == [xs[0]] + xs[1..];
      assert xs[..p] == [xs[0]] + xs[1..][..q] && xs[p..] == xs[1..][q..];
      forall i | 0 <= i < p ensures !before(x, xs[i]) {
        if i > 0 { assert xs[i] == xs[1..][i - 1]; }
      }
    }
  }

  /** Ordering sorts, and keeps the order of ties: nothing stands behind what it comes before. */
  lemma {:induction false} OrderBySorts<C(!new)>(xs: seq<C>, before: (C, C) -> bool) returns (from: seq<int>)
    requires StrictWeak(before)
    ensures SortedFrom(xs, OrderBy(xs, before), before, from)
  {
    from := [];
    if xs != [] {
      var n := |xs| - 1;
      var was := OrderBySorts(xs[..n], before);
      var ys := OrderBy(xs[..n], before);
      var p := PlacedAt(xs[n], ys, before);
      from := was[..p] + [n] + was[p..];
      BeforeTheRest(ys, before, was, xs[n], p);
      PlacedIsTaken(xs, ys, was, p);
      PlacedIsInOrder(ys, before, was, xs[n], n, p);
    }
  }

  /** It comes before everything from there on. */
  lemma BeforeTheRest<C(!new)>(ys: seq<C>, before: (C, C) -> bool, was: seq<int>, x: C, p: nat)
    requires StrictWeak(before) && InOrderFrom(ys, before, was) && p <= |ys|
    requires p < |ys| ==> before(x, ys[p])
    ensures forall k :: p <= k < |ys| ==> before(x, ys[k]) && !before(ys[k], x)
  {
    forall k | p <= k < |ys| ensures before(x, ys[k]) {
      if p < k { assert InTurn(before, ys[p], was[p], ys[k], was[k]); }
    }
  }

  lemma PlacedIsTaken<C(!new)>(xs: seq<C>, ys: seq<C>, was: seq<int>, p: nat)
    requires xs != [] && p <= |ys| && TakenFrom(xs[..|xs| - 1], ys, was)
    ensures TakenFrom(xs, ys[..p] + [xs[|xs| - 1]] + ys[p..], was[..p] + [|xs| - 1] + was[p..])
  {
    var n := |xs| - 1;
    forall k | 0 <= k < |ys| ensures 0 <= was[k] < n && ys[k] == xs[was[k]] { assert ys[k] == xs[..n][was[k]]; }
  }

  lemma PlacedIsInOrder<C(!new)>(ys: seq<C>, before: (C, C) -> bool, was: seq<int>, x: C, n: int, p: nat)
    requires InOrderFrom(ys, before, was) && p <= |ys| && forall k :: 0 <= k < |was| ==> was[k] < n
    requires forall k :: 0 <= k < p ==> !before(x, ys[k])
    requires forall k :: p <= k < |ys| ==> before(x, ys[k]) && !before(ys[k], x)
    ensures InOrderFrom(ys[..p] + [x] + ys[p..], before, was[..p] + [n] + was[p..])
  {
    var all, from := ys[..p] + [x] + ys[p..], was[..p] + [n] + was[p..];
    forall j, k | 0 <= j < k < |all| ensures InTurn(before, all[j], from[j], all[k], from[k]) {
      if j != p && k != p {
        var i, l := if j < p then j else j - 1, if k < p then k else k - 1;
        assert InTurn(before, ys[i], was[i], ys[l], was[l]);
      }
    }
  }

  // ---- The orders of the queries ----

  lemma IdOrders<T(!new)>()
    ensures StrictWeak<Hit<T>>(Oldest()) && StrictWeak<Hit<T>>(Newest())
  {
  }

  lemma StoryOrder()
    ensures StrictWeak(ByStoryOrder())
  {
  }

  ghost predicate FirstDifference(x: string, y: string, k: int) {
    0 <= k <= |x| && k < |y| && x[..k] == y[..k] && (k == |x| || x[k] < y[k])
  }

  /** Texts are compared as a dictionary does. */
  lemma {:induction false} TextBeforeMeans(x: string, y: string)
    ensures TextBefore(x, y) <==> exists k :: FirstDifference(x, y, k)
  {
    if y == [] {
    } else if x == [] || x[0] < y[0] {
      assert FirstDifference(x, y, 0);
    } else if x[0] == y[0] {
      TextBeforeMeans(x[1..], y[1..]);
      if TextBefore(x[1..], y[1..]) {
        var k :| FirstDifference(x[1..], y[1..], k);
        assert x[..k + 1] == [x[0]] + x[1..][..k] && y[..k + 1] == [y[0]] + y[1..][..k];
        assert FirstDifference(x, y, k + 1);
      }
      forall k | FirstDifference(x, y, k) ensures TextBefore(x, y) {
        assert x[1..][..k - 1] == x[..k][1..] && y[1..][..k - 1] == y[..k][1..];
        assert FirstDifference(x[1..], y[1..], k - 1);
      }
    } else {
      forall k | 0 < k <= |x| && k < |y| ensures x[..k] != y[..k] { assert x[..k][0] != y[..k][0]; }
    }
  }

  lemma {:induction false} TextOrder(x: string, y: string, z: string)
    ensures TextBefore(x, y) ==> !TextBefore(y, x)
    ensures TextBefore(x, z) ==> TextBefore(x, y) || TextBefore(y, z)
  {
    if x != [] && y != [] { TextOrder(x[1..], y[1..], if z == [] then [] else z[1..]); }
  }

  lemma KeyOrder()
    ensures StrictWeak(ByOrdinalThenKey())
  {
    forall x: string, y: string ensures TextBefore(x, y) ==> !TextBefore(y, x) { TextOrder(x, y, x); }
    forall x: string, y: string, z: string ensures TextBefore(x, z) ==> TextBefore(x, y) || TextBefore(y, z) {
      TextOrder(x, y, z);
    }
    hide TextBefore;
  }

  lemma ClosestOrder(cosine: (seq<real>, seq<real>) -> real, query: seq<real>)
    ensures StrictWeak(Closest(cosine, query))
  {
    var before := Closest(cosine, query);
    forall x, y ensures before(x, y) ==> !before(y, x) { TextOrder(x.fact.chapterKey, y.fact.chapterKey, []); }
    forall x, y, z ensures before(x, z) ==> before(x, y) || before(y, z) {
      TextOrder(z.fact.chapterKey, y.fact.chapterKey, x.fact.chapterKey);
    }
    hide Closest;
  }

  // ---- What a read lists ----

  /** The row is revealed, not taken back and still open. */
  ghost predicate Seen<T(!new)>(table: seq<Row<T>>, b: int, id: int) {
    && 1 <= id <= |table| && table[id - 1].revealedAt <= b && !table[id - 1].retracted
    && (table[id - 1].invalidAt.None? || b < table[id - 1].invalidAt.value)
  }

  /** A seen row that meets the condition, with its own columns. */
  ghost predicate IsHit<T(!new)>(h: Hit<T>, table: seq<Row<T>>, b: int, chosen: (nat, T) -> bool) {
    && Seen(table, b, h.id) && h.revealedAt == table[h.id - 1].revealedAt && h.fact == table[h.id - 1].fact
    && chosen(h.id, h.fact)
  }

  /** Exactly the seen rows that meet the condition, once each. */
  ghost predicate Lists<T(!new)>(hits: seq<Hit<T>>, table: seq<Row<T>>, b: int, chosen: (nat, T) -> bool) {
    && (forall h :: h in hits <==> IsHit(h, table, b, chosen))
    && forall j, k :: 0 <= j < k < |hits| ==> hits[j].id != hits[k].id
  }

  ghost predicate ByRow<T(!new)>(hits: seq<Hit<T>>) {
    forall j, k :: 0 <= j < k < |hits| ==> hits[j].id < hits[k].id
  }

  lemma {:induction false} SelectIsByRow<T(!new)>(table: seq<Row<T>>, b: int, where: (nat, T) -> bool)
    ensures ByRow(Select(table, b, where))
  {
    if table != [] {
      var n := |table| - 1;
      var rest, hits := Select(table[..n], b, where), Select(table, b, where);
      SelectIsByRow(table[..n], b, where);
      SelectMembers(table[..n], b, where);
      forall k | 0 <= k < |rest| ensures rest[k].id <= n { assert rest[k] in rest; }
    }
  }

  /** The read's own condition is the one stated, on every row that may be seen. */
  ghost predicate Agree<T(!new)>(table: seq<Row<T>>, b: int, where: (nat, T) -> bool, chosen: (nat, T) -> bool) {
    forall id: nat :: Seen(table, b, id) ==> where(id, table[id - 1].fact) == chosen(id, table[id - 1].fact)
  }

  lemma ReadLists<T(!new)>(table: seq<Row<T>>, b: int, where: (nat, T) -> bool, chosen: (nat, T) -> bool,
                           before: (Hit<T>, Hit<T>) -> bool)
    requires StrictWeak(before) && Agree(table, b, where, chosen)
    ensures var hits := OrderBy(Select(table, b, where), before);
            Lists(hits, table, b, chosen) && NoneLater(hits, before)
  {
    hide Select;
    hide OrderBy;
    hide StrictWeak;
    hide IsHit;
    SelectedRows(table, b, where, chosen);
    SelectIsByRow(table, b, where);
    hide Agree;
    hide ByRow;
    OrderedLists(Select(table, b, where), table, b, chosen, before);
  }

  lemma OrderedLists<T(!new)>(rows: seq<Hit<T>>, table: seq<Row<T>>, b: int, chosen: (nat, T) -> bool,
                              before: (Hit<T>, Hit<T>) -> bool)
    requires StrictWeak(before) && ByRow(rows) && forall h :: h in rows <==> IsHit(h, table, b, chosen)
    ensures Lists(OrderBy(rows, before), table, b, chosen) && NoneLater(OrderBy(rows, before), before)
  {
    hide OrderBy;
    hide StrictWeak;
    hide IsHit;
    hide SortedFrom;
    hide ByRow;
    hide NoneLater;
    var from := OrderBySorts(rows, before);
    OrderByMembers(rows, before);
    SortedHits(rows, OrderBy(rows, before), before, from);
  }

  lemma SelectedRows<T(!new)>(table: seq<Row<T>>, b: int, where: (nat, T) -> bool, chosen: (nat, T) -> bool)
    requires Agree(table, b, where, chosen)
    ensures forall h :: h in Select(table, b, where) <==> IsHit(h, table, b, chosen)
  {
    SelectMembers(table, b, where);
    hide Select;
    forall h ensures h in Select(table, b, where) <==> IsHit(h, table, b, chosen) {
      if Seen(table, b, h.id) {
        var r := table[h.id - 1];
        assert h == Hit(h.id, r.revealedAt, r.fact) <==> h.revealedAt == r.revealedAt && h.fact == r.fact;
        assert where(h.id, r.fact) == chosen(h.id, r.fact);
      }
    }
  }

  /** Nothing stands behind what it comes before. */
  ghost predicate NoneLater<C(!new)>(xs: seq<C>, before: (C, C) -> bool) {
    forall j, k :: 0 <= j < k < |xs| ==> !before(xs[k], xs[j])
  }

  lemma SortedHits<T(!new)>(rows: seq<Hit<T>>, hits: seq<Hit<T>>, before: (Hit<T>, Hit<T>) -> bool, from: seq<int>)
    requires SortedFrom(rows, hits, before, from)
    requires ByRow(rows)
    ensures NoneLater(hits, before) && forall j, k :: 0 <= j < k < |hits| ==> hits[j].id != hits[k].id
  {
    forall j, k | 0 <= j < k < |hits| ensures hits[j].id != hits[k].id && !before(hits[k], hits[j]) {
      assert InTurn(before, hits[j], from[j], hits[k], from[k]);
      assert from[j] < from[k] || from[k] < from[j];
    }
  }

  /** By chapter and, within it, by id. */
  ghost predicate OldestFirst<T(!new)>(hits: seq<Hit<T>>) {
    forall j, k :: 0 <= j < k < |hits| ==>
      hits[j].revealedAt < hits[k].revealedAt
      || (hits[j].revealedAt == hits[k].revealedAt && hits[j].id < hits[k].id)
  }

  lemma OldestRead<T(!new)>(table: seq<Row<T>>, b: int, where: (nat, T) -> bool, chosen: (nat, T) -> bool)
    requires Agree(table, b, where, chosen)
    ensures var hits := OrderBy(Select(table, b, where), Oldest());
            Lists(hits, table, b, chosen) && OldestFirst(hits)
  {
    IdOrders<T>();
    ReadLists(table, b, where, chosen, Oldest());
    hide OrderBy;
    hide Select;
  }

  // ---- The reads ----

  ghost predicate LiveKey(s: Store, b: int, key: string) {
    exists id :: Seen(s.chapters, b, id) && s.chapters[id - 1].fact.key == key
  }

  lemma LiveKeyMeans(s: Store, b: int)
    ensures forall key :: ChapterLive(s, b, key) <==> LiveKey(s, b, key)
  {
    forall key ensures ChapterLive(s, b, key) <==> LiveKey(s, b, key) {
      forall i | 0 <= i < |s.chapters| && s.chapters[i].fact.key == key && VisibleAt(s.chapters[i], b)
        ensures LiveKey(s, b, key)
      { assert Seen(s.chapters, b, i + 1); }
    }
  }

  /** Chapters by ordinal and then by key. */
  lemma ChaptersRead(s: Store, b: int)
    ensures var hits := Chapters(s, b);
            && Lists(hits, s.chapters, b, (id, c) => true)
            && forall j, k :: 0 <= j < k < |hits| ==>
                 hits[j].revealedAt < hits[k].revealedAt
                 || (hits[j].revealedAt == hits[k].revealedAt
                     && !exists d :: FirstDifference(hits[k].fact.key, hits[j].fact.key, d))
  {
    KeyOrder();
    ReadLists(s.chapters, b, Any(), (id, c) => true, ByOrdinalThenKey());
    var hits := Chapters(s, b);
    hide Chapters;
    forall j, k | 0 <= j < k < |hits| && exists d :: FirstDifference(hits[k].fact.key, hits[j].fact.key, d)
      ensures TextBefore(hits[k].fact.key, hits[j].fact.key)
    { TextBeforeMeans(hits[k].fact.key, hits[j].fact.key); }
  }

  lemma EntitiesRead(s: Store, b: int, kind: EntityKind)
    ensures Lists(EntitiesOfType(s, b, kind), s.entities, b, (id, e: Entity) => e.kind == kind)
    ensures OldestFirst(EntitiesOfType(s, b, kind))
  {
    OldestRead(s.entities, b, OfKind(kind), (id, e: Entity) => e.kind == kind);
  }

  lemma AliasesRead(s: Store, b: int, entity: nat)
    ensures Lists(AliasesOf(s, b, entity), s.aliases, b,
                  (id, a: Alias) => a.entity == entity && Seen(s.entities, b, entity))
    ensures OldestFirst(AliasesOf(s, b, entity))
  {
    OldestRead(s.aliases, b, AliasOf(s, b, entity),
               (id, a: Alias) => a.entity == entity && Seen(s.entities, b, entity));
  }

  /** Ties between two entities that may be seen. */
  lemma RelationshipsRead(s: Store, b: int)
    ensures Lists(Relationships(s, b).0, s.edges, b,
                  (id, e: Edge) => Seen(s.entities, b, e.src) && Seen(s.entities, b, e.dst))
    ensures OldestFirst(Relationships(s, b).0)
    ensures var (hits, ends) := Relationships(s, b);
            |ends| == |hits| && forall k :: 0 <= k < |hits| ==>
              1 <= hits[k].id <= |s.edges| && ends[k] == s.edges[hits[k].id - 1].invalidAt
  {
    OldestRead(s.edges, b, EndsVisible(s, b),
               (id, e: Edge) => Seen(s.entities, b, e.src) && Seen(s.entities, b, e.dst));
    hide EdgeHits;
    EndsAreRead(s, EdgeHits(s, b));
  }

  lemma EndsAreRead(s: Store, hits: seq<Hit<Edge>>)
    requires forall h :: h in hits ==> 1 <= h.id <= |s.edges|
    ensures var ends := Windows(s, hits);
            |ends| == |hits| && forall k :: 0 <= k < |hits| ==>
              1 <= hits[k].id <= |s.edges| && ends[k] == s.edges[hits[k].id - 1].invalidAt
  {
    forall k | 0 <= k < |hits| ensures 1 <= hits[k].id <= |s.edges| { assert hits[k] in hits; }
  }

  /** Events by chapter, by their place in it, and by id. */
  lemma TimelineRead(s: Store, b: int)
    ensures Lists(Timeline(s, b), s.events, b, (id, e: Event) => true)
    ensures var hits := Timeline(s, b);
            forall j, k :: 0 <= j < k < |hits| ==>
              || hits[j].revealedAt < hits[k].revealedAt
              || (hits[j].revealedAt == hits[k].revealedAt && hits[j].fact.orderIdx < hits[k].fact.orderIdx)
              || (hits[j].revealedAt == hits[k].revealedAt && hits[j].fact.orderIdx == hits[k].fact.orderIdx
                  && hits[j].id < hits[k].id)
  {
    StoryOrder();
    ReadLists(s.events, b, Any(), (id, e: Event) => true, ByStoryOrder());
    hide OrderBy;
    hide Select;
  }

  lemma ParticipantsRead(s: Store, b: int, event: nat)
    ensures Lists(ParticipantsOf(s, b, event), s.entities, b,
                  (id, e: Entity) => Seen(s.events, b, event) && Link(event, id) in s.links)
    ensures OldestFirst(ParticipantsOf(s, b, event))
  {
    OldestRead(s.entities, b, InCast(s, b, event),
               (id, e: Entity) => Seen(s.events, b, event) && Link(event, id) in s.links);
  }

  lemma EventsRead(s: Store, b: int, entity: nat)
    ensures Lists(EventsFor(s, b, entity), s.events, b,
                  (id, e: Event) => Seen(s.entities, b, entity) && Link(id, entity) in s.links)
    ensures OldestFirst(EventsFor(s, b, entity))
  {
    OldestRead(s.events, b, Attended(s, b, entity),
               (id, e: Event) => Seen(s.entities, b, entity) && Link(id, entity) in s.links);
  }

  lemma ThemesRead(s: Store, b: int)
    ensures Lists(Themes(s, b), s.themes, b, (id, t: Theme) => true) && OldestFirst(Themes(s, b))
  {
    OldestRead(s.themes, b, Any(), (id, t: Theme) => true);
  }

  lemma SummariesRead(s: Store, b: int)
    ensures Lists(ChapterSummaries(s, b), s.summaries, b,
                  (id, m: Summary) => m.kind == ChapterSummary && LiveKey(s, b, m.chapterKey))
    ensures OldestFirst(ChapterSummaries(s, b))
  {
    LiveKeyMeans(s, b);
    OldestRead(s.summaries, b, ChapterRecap(s, b),
               (id, m: Summary) => m.kind == ChapterSummary && LiveKey(s, b, m.chapterKey));
  }

  /** `newest` is the newest of the seen rows that meet the condition; there is none when it is absent. */
  ghost predicate IsNewest<T(!new)>(newest: Option<Hit<T>>, table: seq<Row<T>>, b: int, chosen: (nat, T) -> bool) {
    match newest
    case None => forall h :: !IsHit(h, table, b, chosen)
    case Some(top) =>
      IsHit(top, table, b, chosen)
      && forall h :: IsHit(h, table, b, chosen) && h.id != top.id ==>
           h.revealedAt < top.revealedAt || (h.revealedAt == top.revealedAt && h.id < top.id)
  }

  lemma NewestRead<T(!new)>(table: seq<Row<T>>, b: int, where: (nat, T) -> bool, chosen: (nat, T) -> bool)
    requires Agree(table, b, where, chosen)
    ensures IsNewest(First(OrderBy(Select(table, b, where), Newest())), table, b, chosen)
  {
    IdOrders<T>();
    ReadLists(table, b, where, chosen, Newest());
    hide OrderBy;
    hide Select;
    hide StrictWeak;
    var hits := OrderBy(Select(table, b, where), Newest());
    if hits != [] { FirstIsNewest(hits); }
    hide NoneLater;
    hide Newest;
    hide IsHit;
  }

  lemma FirstIsNewest<T(!new)>(hits: seq<Hit<T>>)
    requires hits != [] && NoneLater(hits, Newest())
    ensures hits[0] in hits
    ensures forall h :: h in hits && h.id != hits[0].id ==>
              h.revealedAt < hits[0].revealedAt || (h.revealedAt == hits[0].revealedAt && h.id < hits[0].id)
  {
    forall h | h in hits && h != hits[0] ensures !Newest()(h, hits[0]) {
      var k :| 0 <= k < |hits| && hits[k] == h;
    }
  }

  /** The current state is the newest valid one of an entity that may be seen. */
  lemma CurrentStateRead(s: Store, b: int, entity: nat)
    ensures IsNewest(CurrentState(s, b, entity), s.states, b,
                     (id, st: State) => st.entity == entity && Seen(s.entities, b, entity))
  {
    NewestRead(s.states, b, StateOf(s, b, entity),
               (id, st: State) => st.entity == entity && Seen(s.entities, b, entity));
  }

  /** Catching up tells the newest rolling recap and counts the characters and ties that are listed. */
  lemma CatchMeUpRead(s: Store, b: int)
    ensures var c := CatchMeUp(s, b);
            && c.asOf == b
            && (exists h :: IsNewest(h, s.summaries, b, (id, m: Summary) => m.kind == RollingRecap)
                  && c.recap == if h.Some? then Some(h.value.fact.text) else None)
            && (exists hits :: Lists(hits, s.entities, b, (id, e: Entity) => e.kind == Character)
                  && c.castSize == |hits|)
            && (exists hits :: Lists(hits, s.edges, b,
                                     (id, e: Edge) => Seen(s.entities, b, e.src) && Seen(s.entities, b, e.dst))
                  && c.openThreads == |hits|)
  {
    NewestRead(s.summaries, b, Rolling(), (id, m: Summary) => m.kind == RollingRecap);
    EntitiesRead(s, b, Character);
    RelationshipsRead(s, b);
    hide Lists;
    hide IsNewest;
    hide EdgeHits;
    hide EntitiesOfType;
    var recap := First(RollingRecaps(s, b));
    hide RollingRecaps;
  }

  /** The text stored first among those of the chapter, while the chapter is live. */
  lemma RawRead(s: Store, b: int, key: string)
    ensures var chosen := (id: nat, r: RawText) => r.chapterKey == key && LiveKey(s, b, key);
            match ReadRaw(s, b, key)
            case None => forall h :: !IsHit(h, s.raws, b, chosen)
            case Some(text) => exists h ::
              && IsHit(h, s.raws, b, chosen) && text == h.fact.text
              && forall g :: IsHit(g, s.raws, b, chosen) ==> h.id <= g.id
  {
    var chosen := (id: nat, r: RawText) => r.chapterKey == key && LiveKey(s, b, key);
    LiveKeyMeans(s, b);
    SelectedRows(s.raws, b, RawOf(s, b, key), chosen);
    SelectIsByRow(s.raws, b, RawOf(s, b, key));
    var rows := Select(s.raws, b, RawOf(s, b, key));
    hide Select;
    hide IsHit;
    if rows != [] {
      assert rows[0] in rows;
      forall g | g in rows ensures rows[0].id <= g.id {
        var k :| 0 <= k < |rows| && rows[k] == g;
      }
    }
  }

  /** A biography of an entity that may be seen, put together from its other reads. */
  lemma BioRead(s: Store, b: int, entity: nat)
    ensures match Bio(s, b, entity)
            case None => !Seen(s.entities, b, entity)
            case Some(bio) =>
              && Seen(s.entities, b, entity) && bio.name == s.entities[entity - 1].fact.name
              && bio.kind == s.entities[entity - 1].fact.kind && bio.firstSeen == s.entities[entity - 1].revealedAt
              && (var hits := AliasesOf(s, b, entity);
                  |bio.aliases| == |hits| && forall k :: 0 <= k < |hits| ==> bio.aliases[k] == hits[k].fact.form)
              && (var state := CurrentState(s, b, entity);
                  bio.state == if state.Some? then Some(state.value.fact.note) else None)
              && (var hits := EventsFor(s, b, entity);
                  |bio.appearsIn| == |hits| && forall k :: 0 <= k < |hits| ==> bio.appearsIn[k] == hits[k].id)
  {
    SelectedRows(s.entities, b, WithId(entity), (id, e: Entity) => id == entity);
    var rows := Select(s.entities, b, WithId(entity));
    hide Select;
    hide AliasesOf;
    hide EventsFor;
    hide CurrentState;
    if Seen(s.entities, b, entity) {
      assert Hit(entity, s.entities[entity - 1].revealedAt, s.entities[entity - 1].fact) in rows;
    }
    assert rows != [] ==> rows[0] in rows;
  }

  // ---- Search ----

  /** A chunk that can be compared with the query: of a live chapter, in its space and under the model asked for. */
  ghost predicate CanCompare(s: Store, b: int, query: seq<real>, model: Option<string>, c: Chunk) {
    LiveKey(s, b, c.chapterKey) && |c.vec| == |query| && (model.Some? ==> c.model == model)
  }

  /** Non-increasing similarity and, where that is equal, later keys first. */
  ghost predicate ClosestFirst(hits: seq<Hit<Chunk>>, cosine: (seq<real>, seq<real>) -> real, query: seq<real>) {
    forall i, j :: 0 <= i < j < |hits| ==> NotFarther(hits[i], hits[j], cosine, query)
  }

  ghost predicate NotFarther(g: Hit<Chunk>, h: Hit<Chunk>, cosine: (seq<real>, seq<real>) -> real, query: seq<real>) {
    var near, far := cosine(query, g.fact.vec), cosine(query, h.fact.vec);
    near > far || (near == far && !exists d :: FirstDifference(g.fact.chapterKey, h.fact.chapterKey, d))
  }

  lemma RankingRead(s: Store, b: int, cosine: (seq<real>, seq<real>) -> real, query: seq<real>, asked: Option<string>)
    ensures var model := if asked.Some? then asked else if s.pin.Some? then Some(s.pin.value.model) else None;
            var all := Ranking(s, b, cosine, query, asked);
            Lists(all, s.chunks, b, (id, c: Chunk) => CanCompare(s, b, query, model, c))
            && ClosestFirst(all, cosine, query)
  {
    var model := if asked.Some? then asked else if s.pin.Some? then Some(s.pin.value.model) else None;
    LiveKeyMeans(s, b);
    ClosestOrder(cosine, query);
    ReadLists(s.chunks, b, Comparable(s, b, query, model), (id, c: Chunk) => CanCompare(s, b, query, model, c),
              Closest(cosine, query));
    hide StrictWeak;
    hide Lists;
    hide OrderBy;
    hide Select;
    hide Comparable;
    var all := Ranking(s, b, cosine, query, asked);
    forall i, j | 0 <= i < j < |all| ensures NotFarther(all[i], all[j], cosine, query) {
      TextBeforeMeans(all[i].fact.chapterKey, all[j].fact.chapterKey);
      assert !Closest(cosine, query)(all[j], all[i]);
      hide FirstDifference;
    }
  }

  /**
   A search returns the `k` closest of the chunks that can be compared, or all when there are fewer, in
   non-increasing similarity and, where that is equal, later keys first; no chunk left out is closer than one returned.
   */
  lemma SearchReturnsClosest(s: Store, b: int, cosine: (seq<real>, seq<real>) -> real, query: seq<real>, k: nat,
                             asked: Option<string>)
    ensures var model := if asked.Some? then asked else if s.pin.Some? then Some(s.pin.value.model) else None;
            var hits := Search(s, b, cosine, query, k, asked);
            exists all ::
              && Lists(all, s.chunks, b, (id, c: Chunk) => CanCompare(s, b, query, model, c))
              && hits <= all && |hits| == (if k < |all| then k else |all|) && ClosestFirst(hits, cosine, query)
              && forall g, h :: g in hits && h in all && h !in hits ==> NotFarther(g, h, cosine, query)
  {
    var all := Ranking(s, b, cosine, query, asked);
    RankingRead(s, b, cosine, query, asked);
    var hits := Search(s, b, cosine, query, k, asked);
    hide Ranking;
    hide Lists;
    hide NotFarther;
    forall g, h | g in hits && h in all && h !in hits ensures NotFarther(g, h, cosine, query) {
      var j, i :| 0 <= j < |hits| && hits[j] == g && 0 <= i < |all| && all[i] == h;
      assert all[j] == g && i >= |hits|;
    }
  }
}
