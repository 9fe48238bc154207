/** The reads a reader's view makes of a store at a bookmark, each through the one filter funnel. */
module BookmarkView {
  import opened Wrappers
  import opened StoryMemory

  /** The selected columns of one row. */
  datatype Hit<T> = Hit(id: nat, revealedAt: int, fact: T)

  /** Every view read goes through this funnel: the spoiler clause first, then the read's own condition. */
  function Select<T>(table: seq<Row<T>>, b: int, where: (nat, T) -> bool): seq<Hit<T>> {
    if table == [] then []
    else
      var n := |table|;
      var r := table[n - 1];
      var hits := Select(table[..n - 1], b, where);
      if VisibleAt(r, b) && where(n, r.fact) then hits + [Hit(n, r.revealedAt, r.fact)] else hits
  }

  // ---- Ordering ----

  function PlaceInOrder<C>(x: C, xs: seq<C>, before: (C, C) -> bool): seq<C> {
    if xs == [] then [x]
    else if before(x, xs[0]) then [x] + xs
    else [xs[0]] + PlaceInOrder(x, xs[1..], before)
  }

  /** ORDER BY as a stable insertion sort; `before` is the strict order of the sort keys. */
  function OrderBy<C>(xs: seq<C>, before: (C, C) -> bool): seq<C> {
    if xs == [] then []
    else PlaceInOrder(xs[|xs| - 1], OrderBy(xs[..|xs| - 1], before), before)
  }

  function Oldest<T>(): (Hit<T>, Hit<T>) -> bool {
    (x: Hit<T>, y: Hit<T>) => x.revealedAt < y.revealedAt || (x.revealedAt == y.revealedAt && x.id < y.id)
  }

  function Newest<T>(): (Hit<T>, Hit<T>) -> bool {
    (x: Hit<T>, y: Hit<T>) => x.revealedAt > y.revealedAt || (x.revealedAt == y.revealedAt && x.id > y.id)
  }

  predicate TextBefore(x: string, y: string) {
    |y| > 0 && (|x| == 0 || x[0] < y[0] || (x[0] == y[0] && TextBefore(x[1..], y[1..])))
  }

  function ByOrdinalThenKey(): (Hit<Chapter>, Hit<Chapter>) -> bool {
    (x: Hit<Chapter>, y: Hit<Chapter>) =>
      x.revealedAt < y.revealedAt || (x.revealedAt == y.revealedAt && TextBefore(x.fact.key, y.fact.key))
  }

  function ByStoryOrder(): (Hit<Event>, Hit<Event>) -> bool {
    (x: Hit<Event>, y: Hit<Event>) =>
      x.revealedAt < y.revealedAt
      || (x.revealedAt == y.revealedAt
          && (x.fact.orderIdx < y.fact.orderIdx || (x.fact.orderIdx == y.fact.orderIdx && x.id < y.id)))
  }

  // ---- Referential closure ----

  predicate EntityVisible(s: Store, b: int, id: nat) {
    ValidId(s.entities, id) && VisibleAt(s.entities[id - 1], b)
  }

  predicate EventVisible(s: Store, b: int, id: nat) {
    ValidId(s.events, id) && VisibleAt(s.events[id - 1], b)
  }

  predicate ChapterLive(s: Store, b: int, key: string) {
    exists i :: 0 <= i < |s.chapters| && s.chapters[i].fact.key == key && VisibleAt(s.chapters[i], b)
  }

  // ---- Row conditions ----

  function Any<T>(): (nat, T) -> bool { (id, fact) => true }
  function OfKind(kind: EntityKind): (nat, Entity) -> bool { (id: nat, e: Entity) => e.kind == kind }
  function WithId(entity: nat): (nat, Entity) -> bool { (id: nat, e: Entity) => id == entity }
  function AliasOf(s: Store, b: int, entity: nat): (nat, Alias) -> bool {
    (id: nat, a: Alias) => a.entity == entity && EntityVisible(s, b, a.entity)
  }
  function EndsVisible(s: Store, b: int): (nat, Edge) -> bool {
    (id: nat, e: Edge) => EntityVisible(s, b, e.src) && EntityVisible(s, b, e.dst)
  }
  function InCast(s: Store, b: int, event: nat): (nat, Entity) -> bool {
    (id: nat, e: Entity) => EventVisible(s, b, event) && Link(event, id) in s.links
  }
  function Attended(s: Store, b: int, entity: nat): (nat, Event) -> bool {
    (id: nat, e: Event) => EntityVisible(s, b, entity) && Link(id, entity) in s.links
  }
  function StateOf(s: Store, b: int, entity: nat): (nat, State) -> bool {
    (id: nat, st: State) => st.entity == entity && EntityVisible(s, b, st.entity)
  }
  function ChapterRecap(s: Store, b: int): (nat, Summary) -> bool {
    (id: nat, m: Summary) => m.kind == ChapterSummary && ChapterLive(s, b, m.chapterKey)
  }
  function Rolling(): (nat, Summary) -> bool { (id: nat, m: Summary) => m.kind == RollingRecap }
  function RawOf(s: Store, b: int, key: string): (nat, RawText) -> bool {
    (id: nat, r: RawText) => r.chapterKey == key && ChapterLive(s, b, r.chapterKey)
  }
  function Comparable(s: Store, b: int, query: seq<real>, model: Option<string>): (nat, Chunk) -> bool {
    (id: nat, c: Chunk) =>
      ChapterLive(s, b, c.chapterKey) && |c.vec| == |query| && (model.None? || c.model == model)
  }

  // ---- Reads ----

  function Chapters(s: Store, b: int): seq<Hit<Chapter>> {
    OrderBy(Select(s.chapters, b, Any()), ByOrdinalThenKey())
  }

  function EntitiesOfType(s: Store, b: int, kind: EntityKind): seq<Hit<Entity>> {
    OrderBy(Select(s.entities, b, OfKind(kind)), Oldest())
  }

  function Characters(s: Store, b: int): seq<Hit<Entity>> {
    EntitiesOfType(s, b, Character)
  }

  function AliasesOf(s: Store, b: int, entity: nat): seq<Hit<Alias>> {
    OrderBy(Select(s.aliases, b, AliasOf(s, b, entity)), Oldest())
  }

  function EdgeHits(s: Store, b: int): seq<Hit<Edge>> {
    OrderBy(Select(s.edges, b, EndsVisible(s, b)), Oldest())
  }

  /** `relationships` also selects the closing chapter of each edge. */
  function Windows(s: Store, hits: seq<Hit<Edge>>): seq<Option<int>> {
    seq(|hits|, i requires 0 <= i < |hits| =>
      if ValidId(s.edges, hits[i].id) then s.edges[hits[i].id - 1].invalidAt else None)
  }

  function Relationships(s: Store, b: int): (seq<Hit<Edge>>, seq<Option<int>>) {
    (EdgeHits(s, b), Windows(s, EdgeHits(s, b)))
  }

  function Timeline(s: Store, b: int): seq<Hit<Event>> {
    OrderBy(Select(s.events, b, Any()), ByStoryOrder())
  }

  function ParticipantsOf(s: Store, b: int, event: nat): seq<Hit<Entity>> {
    OrderBy(Select(s.entities, b, InCast(s, b, event)), Oldest())
  }

  function EventsFor(s: Store, b: int, entity: nat): seq<Hit<Event>> {
    OrderBy(Select(s.events, b, Attended(s, b, entity)), Oldest())
  }

  function Themes(s: Store, b: int): seq<Hit<Theme>> {
    OrderBy(Select(s.themes, b, Any()), Oldest())
  }

  function First<C>(xs: seq<C>): Option<C> {
    if xs == [] then None else Some(xs[0])
  }

  function CurrentState(s: Store, b: int, entity: nat): Option<Hit<State>> {
    First(OrderBy(Select(s.states, b, StateOf(s, b, entity)), Newest()))
  }

  function ChapterSummaries(s: Store, b: int): seq<Hit<Summary>> {
    OrderBy(Select(s.summaries, b, ChapterRecap(s, b)), Oldest())
  }

  function ReadRaw(s: Store, b: int, key: string): Option<string> {
    var rows := Select(s.raws, b, RawOf(s, b, key));
    if rows == [] then None else Some(rows[0].fact.text)
  }

  datatype Biography = Biography(name: string, kind: EntityKind, firstSeen: int, aliases: seq<string>,
                                 state: Option<string>, appearsIn: seq<nat>)

  function Forms(hits: seq<Hit<Alias>>): seq<string> {
    seq(|hits|, i requires 0 <= i < |hits| => hits[i].fact.form)
  }

  function Ids<T>(hits: seq<Hit<T>>): seq<nat> {
    seq(|hits|, i requires 0 <= i < |hits| => hits[i].id)
  }

  function Bio(s: Store, b: int, entity: nat): Option<Biography> {
    var rows := Select(s.entities, b, WithId(entity));
    if rows == [] then None
    else
      var state := CurrentState(s, b, entity);
      Some(Biography(rows[0].fact.name, rows[0].fact.kind, rows[0].revealedAt,
                     Forms(AliasesOf(s, b, entity)),
                     if state.Some? then Some(state.value.fact.note) else None,
                     Ids(EventsFor(s, b, entity))))
  }

  datatype CatchUp = CatchUp(asOf: int, recap: Option<string>, castSize: nat, openThreads: nat)

  function RollingRecaps(s: Store, b: int): seq<Hit<Summary>> {
    OrderBy(Select(s.summaries, b, Rolling()), Newest())
  }

  function CatchMeUp(s: Store, b: int): CatchUp {
    var recap := First(RollingRecaps(s, b));
    CatchUp(b, if recap.Some? then Some(recap.value.fact.text) else None,
            |Characters(s, b)|, |EdgeHits(s, b)|)
  }

  function Closest(cosine: (seq<real>, seq<real>) -> real, query: seq<real>): (Hit<Chunk>, Hit<Chunk>) -> bool {
    (x: Hit<Chunk>, y: Hit<Chunk>) =>
      cosine(query, x.fact.vec) > cosine(query, y.fact.vec)
      || (cosine(query, x.fact.vec) == cosine(query, y.fact.vec) && TextBefore(y.fact.chapterKey, x.fact.chapterKey))
  }

  /** The filtered chunks of the asked, or else the pinned, embedding model, closest first. */
  function Ranking(s: Store, b: int, cosine: (seq<real>, seq<real>) -> real,
                   query: seq<real>, asked: Option<string>): seq<Hit<Chunk>> {
    var model := if asked.Some? then asked else if s.pin.Some? then Some(s.pin.value.model) else None;
    OrderBy(Select(s.chunks, b, Comparable(s, b, query, model)), Closest(cosine, query))
  }

  /** Semantic search: the `k` closest. */
  function Search(s: Store, b: int, cosine: (seq<real>, seq<real>) -> real,
                  query: seq<real>, k: nat, asked: Option<string>): seq<Hit<Chunk>> {
    var scored := Ranking(s, b, cosine, query, asked);
    if |scored| <= k then scored else scored[..k]
  }

  /** Two stores give every read at `b` the same answer, the ends that `relationships` selects aside. */
  ghost predicate SameView(s: Store, t: Store, b: int, cosine: (seq<real>, seq<real>) -> real) {
    && Chapters(s, b) == Chapters(t, b)
    && Characters(s, b) == Characters(t, b)
    && (forall kind :: EntitiesOfType(s, b, kind) == EntitiesOfType(t, b, kind))
    && (forall e :: AliasesOf(s, b, e) == AliasesOf(t, b, e))
    && EdgeHits(s, b) == EdgeHits(t, b)
    && Timeline(s, b) == Timeline(t, b)
    && (forall e :: ParticipantsOf(s, b, e) == ParticipantsOf(t, b, e))
    && (forall e :: EventsFor(s, b, e) == EventsFor(t, b, e))
    && Themes(s, b) == Themes(t, b)
    && (forall e :: CurrentState(s, b, e) == CurrentState(t, b, e))
    && ChapterSummaries(s, b) == ChapterSummaries(t, b)
    && (forall key :: ReadRaw(s, b, key) == ReadRaw(t, b, key))
    && (forall e :: Bio(s, b, e) == Bio(t, b, e))
    && CatchMeUp(s, b) == CatchMeUp(t, b)
    && (forall q, k, m :: Search(s, b, cosine, q, k, m) == Search(t, b, cosine, q, k, m))
  }
}
