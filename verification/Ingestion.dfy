/**
 The ingestion of one validated chapter extraction into the store, and of a whole run of chapters.
 These functions are the specification that `Pipeline.IngestChapter` is proved against.
 */
module Ingestion {
  import opened Wrappers
  import opened StoryMemory
  import opened BookmarkView
  import opened Resolution

  datatype Tools = Tools(names: Names, embedder: Option<Embedder>, hash: string -> string,
                         chunkEmbed: Option<string -> seq<real>>)

  datatype Relation = Relation(src: string, dst: string, relType: string, caption: string)
  datatype Beat = Beat(summary: string, participants: seq<string>)
  datatype Extraction = Extraction(summary: string, mentions: seq<Mention>, relations: seq<Relation>,
                                   beats: seq<Beat>, themes: seq<Theme>)
  datatype Source = Source(key: string, ordinal: int, title: string, text: string)

  // ---- The running roster ----

  function RosterOf(s: Store, b: int, kind: EntityKind): seq<RosterEntry> {
    var hits := EntitiesOfType(s, b, kind);
    seq(|hits|, i requires 0 <= i < |hits| =>
      RosterEntry(hits[i].fact.name, hits[i].fact.kind, Forms(AliasesOf(s, b, hits[i].id)), Known(hits[i].id)))
  }

  function Roster(s: Store, b: int): seq<RosterEntry> {
    RosterOf(s, b, Character) + RosterOf(s, b, Place) + RosterOf(s, b, Faction) + RosterOf(s, b, Object)
  }

  function RosterBefore(s: Store, ordinal: int): seq<RosterEntry> {
    Roster(s, if ordinal - 1 > 0 then ordinal - 1 else 0)
  }

  /** No row has id 0. */
  function IdOf(ref: Ref): nat {
    match ref
    case Known(id) => id
    case Pending(_) => 0
  }

  /** `setdefault` of the first `count` alias forms. */
  function WithForms(n: Names, names: map<string, nat>, forms: seq<string>, count: nat, id: nat): map<string, nat>
    requires count <= |forms|
  {
    if count == 0 then names
    else
      var prior := WithForms(n, names, forms, count - 1, id);
      var key := n.norm(forms[count - 1]);
      if key in prior then prior else prior[key := id]
  }

  function RosterNames(n: Names, roster: seq<RosterEntry>, count: nat): map<string, nat>
    requires count <= |roster|
  {
    if count == 0 then map[]
    else
      var e := roster[count - 1];
      var named := RosterNames(n, roster, count - 1)[n.norm(e.name) := IdOf(e.ref)];
      WithForms(n, named, e.aliases, |e.aliases|, IdOf(e.ref))
  }

  // ---- Mentions ----

  datatype Progress = Progress(store: Store, names: map<string, nat>, created: map<nat, nat>,
                               resolved: seq<nat>, merges: nat, creates: nat)

  /** Stores the first `count` aliases of an entity, those already naming an entity excepted. */
  function AddForms(n: Names, s: Store, known: map<string, nat>, forms: seq<string>, count: nat, id: nat,
                    at: int): Store
    requires count <= |forms|
  {
    if count == 0 then s
    else
      var prior := AddForms(n, s, known, forms, count - 1, id, at);
      if n.norm(forms[count - 1]) in known then prior
      else Commit(prior, NewAlias(Alias(id, forms[count - 1]), at))
  }

  predicate SaysState(state: Option<string>) {
    state.Some? && state.value != ""
  }

  /** Closes the current window and opens the next; a second state of one chapter is not stored. */
  function AdvanceState(s: Store, id: nat, state: Option<string>, at: int): Store {
    if !SaysState(state) then s
    else
      var cur := CurrentState(s, at, id);
      if cur.Some? && cur.value.revealedAt < at then Commit(s, ReplaceState(cur.value.id, at, state.value))
      else if cur.None? then Commit(s, NewState(State(id, state.value), at, None))
      else s
  }

  function FirstState(s: Store, id: nat, state: Option<string>, at: int): Store {
    if SaysState(state) then Commit(s, NewState(State(id, state.value), at, None)) else s
  }

  function Target(p: Progress, ref: Ref): nat {
    match ref
    case Known(id) => id
    case Pending(j) => if j in p.created then p.created[j] else 0
  }

  function Named(n: Names, p: Progress, m: Mention, id: nat): Progress {
    var names := WithForms(n, p.names[n.norm(m.name) := id], m.aliases, |m.aliases|, id);
    p.(names := names, resolved := p.resolved + [id])
  }

  function MergeMention(n: Names, p: Progress, m: Mention, id: nat, at: int): Progress {
    var aliased := AddForms(n, p.store, p.names, m.aliases, |m.aliases|, id, at);
    Named(n, p.(store := AdvanceState(aliased, id, m.state, at), merges := p.merges + 1), m, id)
  }

  function CreateMention(n: Names, p: Progress, i: nat, m: Mention, at: int): Progress {
    var begun := Commit(p.store, NewEntity(Entity(m.name, m.kind), at));
    var id := |begun.entities|;
    var aliased := AddForms(n, begun, map[], m.aliases, |m.aliases|, id, at);
    Named(n, p.(store := FirstState(aliased, id, m.state, at), created := p.created[i := id],
                creates := p.creates + 1), m, id)
  }

  function StepMention(n: Names, p: Progress, i: nat, m: Mention, d: Decision, at: int): Progress {
    match d
    case Merge(ref, _) => MergeMention(n, p, m, Target(p, ref), at)
    case Create(_) => CreateMention(n, p, i, m, at)
  }

  function Mentions(n: Names, p: Progress, ms: seq<Mention>, ds: seq<Decision>, count: nat, at: int): Progress
    requires count <= |ms| == |ds|
  {
    if count == 0 then p
    else StepMention(n, Mentions(n, p, ms, ds, count - 1, at), count - 1, ms[count - 1], ds[count - 1], at)
  }

  // ---- Relations, events and themes ----

  function Lookup(n: Names, names: map<string, nat>, form: string): Option<nat> {
    if n.norm(form) in names then Some(names[n.norm(form)]) else None
  }

  function AddRelations(n: Names, s: Store, names: map<string, nat>, rels: seq<Relation>, count: nat, at: int)
    : (Store, nat)
    requires count <= |rels|
  {
    if count == 0 then (s, 0)
    else
      var (prior, unresolved) := AddRelations(n, s, names, rels, count - 1, at);
      var r := rels[count - 1];
      var src, dst := Lookup(n, names, r.src), Lookup(n, names, r.dst);
      if src.Some? && dst.Some? then
        (Commit(prior, NewEdge(Edge(src.value, dst.value, r.relType, r.caption), at, None)), unresolved)
      else (prior, unresolved + 1)
  }

  /** The participants that resolve, each once, and how many did not resolve. */
  function Cast(n: Names, names: map<string, nat>, forms: seq<string>, count: nat): (seq<nat>, nat)
    requires count <= |forms|
  {
    if count == 0 then ([], 0)
    else
      var (cast, dropped) := Cast(n, names, forms, count - 1);
      var id := Lookup(n, names, forms[count - 1]);
      if id.None? then (cast, dropped + 1)
      else if id.value in cast then (cast, dropped)
      else (cast + [id.value], dropped)
  }

  function AddLinks(s: Store, event: nat, cast: seq<nat>, count: nat): Store
    requires count <= |cast|
  {
    if count == 0 then s else Commit(AddLinks(s, event, cast, count - 1), NewLink(Link(event, cast[count - 1])))
  }

  function AddBeat(n: Names, s: Store, names: map<string, nat>, beat: Beat, at: int): (Store, nat) {
    var (cast, dropped) := Cast(n, names, beat.participants, |beat.participants|);
    var begun := Commit(s, NewEvent(Event(beat.summary, 1), at, None));
    (AddLinks(begun, |begun.events|, cast, |cast|), dropped)
  }

  function AddBeats(n: Names, s: Store, names: map<string, nat>, beats: seq<Beat>, count: nat, at: int): (Store, nat)
    requires count <= |beats|
  {
    if count == 0 then (s, 0)
    else
      var (prior, dropped) := AddBeats(n, s, names, beats, count - 1, at);
      var (next, more) := AddBeat(n, prior, names, beats[count - 1], at);
      (next, dropped + more)
  }

  function AddThemes(s: Store, themes: seq<Theme>, count: nat, at: int): Store
    requires count <= |themes|
  {
    if count == 0 then s else Commit(AddThemes(s, themes, count - 1, at), NewTheme(themes[count - 1], at))
  }

  // ---- One chapter ----

  datatype Report = Report(merges: nat, creates: nat, resolved: seq<nat>, unresolved: nat, dropped: nat)

  datatype Outcome =
    | Skipped(store: Store)
    | Ingested(store: Store, report: Report)
    | Raised(store: Store, error: DbError)

  predicate AlreadyIngested(s: Store, key: string, hash: string) {
    exists i :: 0 <= i < |s.chapters| && s.chapters[i].fact.key == key
                && s.chapters[i].fact.contentHash == hash && !s.chapters[i].retracted
  }

  function Start(n: Names, s: Store, roster: seq<RosterEntry>): Progress {
    Progress(s, RosterNames(n, roster, |roster|), map[], [], 0, 0)
  }

  /** Everything derived from the extraction, once chapter, raw text and summary are stored. */
  function Derive(tools: Tools, s: Store, src: Source, ex: Extraction): (Store, Report) {
    var n, at := tools.names, src.ordinal;
    var roster := RosterBefore(s, at);
    var ds := Decisions(n, tools.embedder, ex.mentions, |ex.mentions|, roster);
    var p := Mentions(n, Start(n, s, roster), ex.mentions, ds, |ex.mentions|, at);
    var (linked, unresolved) := AddRelations(n, p.store, p.names, ex.relations, |ex.relations|, at);
    var (told, dropped) := AddBeats(n, linked, p.names, ex.beats, |ex.beats|, at);
    (AddThemes(told, ex.themes, |ex.themes|, at), Report(p.merges, p.creates, p.resolved, unresolved, dropped))
  }

  function Head<C>(xs: seq<C>, k: nat): seq<C> {
    if |xs| <= k then xs else xs[..k]
  }

  function ChunkOf(embed: string -> seq<real>, src: Source): Chunk {
    Chunk(src.key, Head(src.text, 500), embed(Head(src.text, 2000)), None)
  }

  /** The three rows every chapter starts with, or the constraint that stopped it and what was stored. */
  function OpenChapter(tools: Tools, s: Store, src: Source, ex: Extraction): (Store, Option<DbError>) {
    var hash := tools.hash(src.text);
    match Apply(s, NewChapter(Chapter(src.key, src.title, hash), src.ordinal))
    case Failure(e) => (s, Some(e))
    case Success(a) =>
      var raw := if src.text == "" then Success(a) else Apply(a, NewRaw(RawText(src.key, src.text), src.ordinal));
      match raw
      case Failure(e) => (a, Some(e))
      case Success(r) => (Commit(r, NewSummary(Summary(src.key, ChapterSummary, ex.summary), src.ordinal)), None)
  }

  function Ingest(tools: Tools, s: Store, src: Source, ex: Extraction): Outcome {
    if AlreadyIngested(s, src.key, tools.hash(src.text)) then Skipped(s)
    else
      var (begun, error) := OpenChapter(tools, s, src, ex);
      if error.Some? then Raised(begun, error.value)
      else
        var (derived, report) := Derive(tools, begun, src, ex);
        if tools.chunkEmbed.None? || src.text == "" then Ingested(derived, report)
        else
          var w := NewChunk(ChunkOf(tools.chunkEmbed.value, src), src.ordinal);
          match Apply(derived, w)
          case Failure(e) => Raised(derived, e)
          case Success(done) => Ingested(done, report)
  }

  // ---- A run of chapters ----

  datatype Job = Job(src: Source, extraction: Extraction)

  /** A run stops where an ingestion raises. */
  function Run(tools: Tools, pin: Option<Pin>, jobs: seq<Job>): Outcome {
    if jobs == [] then Skipped(EmptyStore(pin))
    else
      var n := |jobs| - 1;
      var before := Run(tools, pin, jobs[..n]);
      if before.Raised? then before else Ingest(tools, before.store, jobs[n].src, jobs[n].extraction)
  }

  /** Chapters in reading order: distinct keys, strictly increasing ordinals. */
  ghost predicate InOrder(jobs: seq<Job>) {
    forall i, j :: 0 <= i < j < |jobs| ==>
      jobs[i].src.key != jobs[j].src.key && jobs[i].src.ordinal < jobs[j].src.ordinal
  }

  function UpTo(jobs: seq<Job>, b: int): seq<Job> {
    if jobs == [] then []
    else
      var n := |jobs| - 1;
      if jobs[n].src.ordinal <= b then UpTo(jobs[..n], b) + [jobs[n]] else UpTo(jobs[..n], b)
  }
}
