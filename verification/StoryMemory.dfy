/**
 The per-book story memory: tables of facts stamped with story time (`revealedAt`, `invalidAt`) and
 transaction time (`retracted`), and the writers that insert and update their rows.

 A row's id is its position in its table plus one, as SQLite assigns ids to a table no row leaves.
 */
module StoryMemory {
  import opened Wrappers

  datatype EntityKind = Character | Place | Faction | Object

  datatype Row<T> = Row(fact: T, revealedAt: int, invalidAt: Option<int>, retracted: bool)

  datatype Chapter = Chapter(key: string, title: string, contentHash: string)
  datatype RawText = RawText(chapterKey: string, text: string)
  datatype SummaryKind = ChapterSummary | RollingRecap
  datatype Summary = Summary(chapterKey: string, kind: SummaryKind, text: string)
  datatype Entity = Entity(name: string, kind: EntityKind)
  datatype Alias = Alias(entity: nat, form: string)
  datatype Edge = Edge(src: nat, dst: nat, relType: string, caption: string)
  datatype Event = Event(summary: string, orderIdx: int)
  datatype Link = Link(event: nat, entity: nat)
  datatype Theme = Theme(name: string, description: string)
  datatype State = State(entity: nat, note: string)
  datatype Chunk = Chunk(chapterKey: string, text: string, vec: seq<real>, model: Option<string>)
  datatype Pin = Pin(model: string, dim: nat)

  datatype Store = Store(
    pin: Option<Pin>,
    chapters: seq<Row<Chapter>>, raws: seq<Row<RawText>>, summaries: seq<Row<Summary>>,
    entities: seq<Row<Entity>>, aliases: seq<Row<Alias>>, edges: seq<Row<Edge>>,
    events: seq<Row<Event>>, links: seq<Link>, themes: seq<Row<Theme>>,
    states: seq<Row<State>>, chunks: seq<Row<Chunk>>)

  function EmptyStore(pin: Option<Pin>): Store {
    Store(pin, [], [], [], [], [], [], [], [], [], [], [])
  }

  // ---- Rows and story time ----

  predicate OpenAt(until: Option<int>, b: int) {
    until.None? || until.value > b
  }

  /** The canonical spoiler clause of the read funnel. */
  predicate VisibleAt<T>(r: Row<T>, b: int) {
    r.revealedAt <= b && !r.retracted && OpenAt(r.invalidAt, b)
  }

  function Insert<T>(table: seq<Row<T>>, fact: T, at: int, until: Option<int>): seq<Row<T>> {
    table + [Row(fact, at, until, false)]
  }

  function Close<T>(table: seq<Row<T>>, id: nat, at: int): seq<Row<T>>
    requires 1 <= id <= |table|
  {
    table[id - 1 := table[id - 1].(invalidAt := Some(at))]
  }

  /** CHECK (invalid_at IS NULL OR invalid_at > revealed_at). */
  predicate WindowOk(at: int, until: Option<int>) {
    until.None? || until.value > at
  }

  predicate ValidId<T>(table: seq<Row<T>>, id: nat) {
    1 <= id <= |table|
  }

  predicate HasKey(chapters: seq<Row<Chapter>>, key: string) {
    exists i :: 0 <= i < |chapters| && chapters[i].fact.key == key
  }

  // ---- Writes ----

  datatype Write =
    | NewChapter(chapter: Chapter, at: int)
    | NewRaw(raw: RawText, at: int)
    | NewSummary(summary: Summary, at: int)
    | NewEntity(entity: Entity, at: int)
    | NewAlias(alias: Alias, at: int)
    | NewEdge(edge: Edge, at: int, until: Option<int>)
    | ReplaceEdge(id: nat, at: int, relType: string, caption: string)
    | EndEdge(id: nat, at: int)
    | NewEvent(event: Event, at: int, until: Option<int>)
    | NewLink(link: Link)
    | EndEvent(id: nat, at: int)
    | NewTheme(theme: Theme, at: int)
    | NewState(state: State, at: int, until: Option<int>)
    | ReplaceState(id: nat, at: int, note: string)
    | NewChunk(chunk: Chunk, at: int)

  datatype DbError = DuplicateKey | DuplicateOrdinal | ForeignKey | BadWindow | NoSuchRow | WrongEmbedding

  /** The live row of a chapter key, if any. */
  function LiveChapter(chapters: seq<Row<Chapter>>, key: string): (i: Option<nat>)
    ensures i.Some? ==> i.value < |chapters| && chapters[i.value].fact.key == key && !chapters[i.value].retracted
    ensures i.None? ==> forall k :: 0 <= k < |chapters| && chapters[k].fact.key == key ==> chapters[k].retracted
  {
    if chapters == [] then None
    else
      var n := |chapters| - 1;
      if chapters[n].fact.key == key && !chapters[n].retracted then Some(n)
      else LiveChapter(chapters[..n], key)
  }

  /** A live chapter other than `except` already holds this ordinal (the unique index). */
  predicate OrdinalTaken(chapters: seq<Row<Chapter>>, at: int, except: Option<nat>) {
    exists i :: 0 <= i < |chapters| && Some(i) != except && !chapters[i].retracted && chapters[i].revealedAt == at
  }

  function ApplyChapter(s: Store, c: Chapter, at: int): Result<Store, DbError> {
    match LiveChapter(s.chapters, c.key)
    case Some(i) =>
      var row := s.chapters[i];
      if row.fact.contentHash == c.contentHash && row.revealedAt == at then Success(s)
      else if OrdinalTaken(s.chapters, at, Some(i)) then Failure(DuplicateOrdinal)
      else Success(s.(chapters := s.chapters[i := row.(fact := c, revealedAt := at)]))
    case None =>
      if HasKey(s.chapters, c.key) then Failure(DuplicateKey)
      else if OrdinalTaken(s.chapters, at, None) then Failure(DuplicateOrdinal)
      else Success(s.(chapters := Insert(s.chapters, c, at, None)))
  }

  /** The pin is checked before the row meets its foreign key. */
  function ApplyChunk(s: Store, c: Chunk, at: int): Result<Store, DbError> {
    var model := if c.model.None? && s.pin.Some? then Some(s.pin.value.model) else c.model;
    if s.pin.Some? && (model != Some(s.pin.value.model) || |c.vec| != s.pin.value.dim) then Failure(WrongEmbedding)
    else if !HasKey(s.chapters, c.chapterKey) then Failure(ForeignKey)
    else Success(s.(chunks := Insert(s.chunks, c.(model := model), at, None)))
  }

  function ApplyReplaceEdge(s: Store, id: nat, at: int, relType: string, caption: string): Result<Store, DbError> {
    if !ValidId(s.edges, id) then Failure(NoSuchRow)
    else if at <= s.edges[id - 1].revealedAt then Failure(BadWindow)
    else
      var prior := s.edges[id - 1].fact;
      Success(s.(edges := Insert(Close(s.edges, id, at), Edge(prior.src, prior.dst, relType, caption), at, None)))
  }

  function ApplyReplaceState(s: Store, id: nat, at: int, note: string): Result<Store, DbError> {
    if !ValidId(s.states, id) then Failure(NoSuchRow)
    else if at <= s.states[id - 1].revealedAt then Failure(BadWindow)
    else
      var prior := s.states[id - 1].fact;
      Success(s.(states := Insert(Close(s.states, id, at), State(prior.entity, note), at, None)))
  }

  /** One committing transaction: the new store, or the constraint that rolled it back. */
  function Apply(s: Store, w: Write): Result<Store, DbError> {
    match w
    case NewChapter(c, at) => ApplyChapter(s, c, at)
    case NewRaw(r, at) =>
      if exists i :: 0 <= i < |s.raws| && s.raws[i].fact.chapterKey == r.chapterKey then Failure(DuplicateKey)
      else if !HasKey(s.chapters, r.chapterKey) then Failure(ForeignKey)
      else Success(s.(raws := Insert(s.raws, r, at, None)))
    case NewSummary(m, at) =>
      if !HasKey(s.chapters, m.chapterKey) then Failure(ForeignKey)
      else Success(s.(summaries := Insert(s.summaries, m, at, None)))
    case NewEntity(e, at) => Success(s.(entities := Insert(s.entities, e, at, None)))
    case NewAlias(a, at) =>
      if !ValidId(s.entities, a.entity) then Failure(ForeignKey)
      else Success(s.(aliases := Insert(s.aliases, a, at, None)))
    case NewEdge(e, at, until) =>
      if !ValidId(s.entities, e.src) || !ValidId(s.entities, e.dst) then Failure(ForeignKey)
      else if !WindowOk(at, until) then Failure(BadWindow)
      else Success(s.(edges := Insert(s.edges, e, at, until)))
    case ReplaceEdge(id, at, relType, caption) => ApplyReplaceEdge(s, id, at, relType, caption)
    case EndEdge(id, at) =>
      if !ValidId(s.edges, id) then Success(s)
      else if at <= s.edges[id - 1].revealedAt then Failure(BadWindow)
      else Success(s.(edges := Close(s.edges, id, at)))
    case NewEvent(e, at, until) =>
      if !WindowOk(at, until) then Failure(BadWindow)
      else Success(s.(events := Insert(s.events, e, at, until)))
    case NewLink(l) =>
      if !ValidId(s.events, l.event) || !ValidId(s.entities, l.entity) then Failure(ForeignKey)
      else if l in s.links then Failure(DuplicateKey)
      else Success(s.(links := s.links + [l]))
    case EndEvent(id, at) =>
      if !ValidId(s.events, id) then Success(s)
      else if at <= s.events[id - 1].revealedAt then Failure(BadWindow)
      else Success(s.(events := Close(s.events, id, at)))
    case NewTheme(t, at) => Success(s.(themes := Insert(s.themes, t, at, None)))
    case NewState(st, at, until) =>
      if !ValidId(s.entities, st.entity) then Failure(ForeignKey)
      else if !WindowOk(at, until) then Failure(BadWindow)
      else Success(s.(states := Insert(s.states, st, at, until)))
    case ReplaceState(id, at, note) => ApplyReplaceState(s, id, at, note)
    case NewChunk(c, at) => ApplyChunk(s, c, at)
  }

  /** The store after the write, rolled back to the old one when it is refused. */
  function Commit(s: Store, w: Write): Store {
    var r := Apply(s, w);
    if r.Success? then r.value else s
  }

  // ---- Transaction time ----

  function Retracted<T>(table: seq<Row<T>>, where: T -> bool): seq<Row<T>> {
    seq(|table|, i requires 0 <= i < |table| =>
      if where(table[i].fact) then table[i].(retracted := true) else table[i])
  }

  /** Takes back a chapter with its raw text, summaries and chunks. */
  function RetractChapter(s: Store, key: string): Store {
    s.(chapters := Retracted(s.chapters, (c: Chapter) => c.key == key),
       raws := Retracted(s.raws, (r: RawText) => r.chapterKey == key),
       summaries := Retracted(s.summaries, (m: Summary) => m.chapterKey == key),
       chunks := Retracted(s.chunks, (c: Chunk) => c.chapterKey == key))
  }

  /** Takes back the summaries of one kind of a chapter. */
  function RetractSummaries(s: Store, key: string, kind: SummaryKind): Store {
    s.(summaries := Retracted(s.summaries, (m: Summary) => m.chapterKey == key && m.kind == kind))
  }
}
