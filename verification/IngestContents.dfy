/**
 What the stored rows of a chapter say: each tie joins the entities its names stand for, each event has the
 cast that was extracted, and of several states said of one entity in a chapter the first is kept.
 */
module IngestContents {
  import opened Wrappers
  import opened StoryMemory
  import opened BookmarkView
  import opened StoryTime
  import opened StoreInvariants
  import opened Resolution
  import opened Ingestion
  import opened NameTable
  import opened IngestionTheorems
  import opened IngestRows

  // ---- Ties ----

  function Tie(n: Names, names: map<string, nat>, r: Relation): Option<Edge> {
    var src, dst := Lookup(n, names, r.src), Lookup(n, names, r.dst);
    if src.Some? && dst.Some? then Some(Edge(src.value, dst.value, r.relType, r.caption)) else None
  }

  /** The ties of the first `count` relations that both names resolve for, in order. */
  function Ties(n: Names, names: map<string, nat>, rels: seq<Relation>, count: nat): seq<Edge>
    requires count <= |rels|
  {
    if count == 0 then []
    else
      var tie := Tie(n, names, rels[count - 1]);
      Ties(n, names, rels, count - 1) + if tie.Some? then [tie.value] else []
  }

  /** The relations add exactly their ties, stamped with the chapter. */
  lemma {:induction false} TiesAreStored(n: Names, s: Store, names: map<string, nat>, rels: seq<Relation>, count: nat,
                                         at: int)
    requires count <= |rels| && NamesOk(names, s)
    ensures var t := AddRelations(n, s, names, rels, count, at).0;
            t == s.(edges := s.edges + NewRows(Ties(n, names, rels, count), at))
  {
    if count == 0 {
      assert NewRows<Edge>([], at) == [];
    } else {
      TiesAreStored(n, s, names, rels, count - 1, at);
      var prior, tie := Ties(n, names, rels, count - 1), Tie(n, names, rels[count - 1]);
      if tie.Some? { assert NewRows(prior + [tie.value], at) == NewRows(prior, at) + [NewRow(tie.value, at)]; }
    }
  }

  // ---- Casts ----

  /** Some participant name of the event stands for the entity. */
  predicate Plays(n: Names, names: map<string, nat>, forms: seq<string>, entity: nat) {
    exists i :: 0 <= i < |forms| && Lookup(n, names, forms[i]) == Some(entity)
  }

  lemma {:induction false} CastMeans(n: Names, names: map<string, nat>, forms: seq<string>, count: nat)
    requires count <= |forms|
    ensures forall e: nat :: e in Cast(n, names, forms, count).0 <==> Plays(n, names, forms[..count], e)
  {
    if count > 0 {
      CastMeans(n, names, forms, count - 1);
      forall e: nat ensures Plays(n, names, forms[..count], e)
                            <==> Plays(n, names, forms[..count - 1], e) || Lookup(n, names, forms[count - 1]) == Some(e)
      {
        assert forms[..count] == forms[..count - 1] + [forms[count - 1]];
        if Plays(n, names, forms[..count], e) {
          var i :| 0 <= i < count && Lookup(n, names, forms[..count][i]) == Some(e);
          assert i < count - 1 ==> forms[..count - 1][i] == forms[i];
        }
        if Plays(n, names, forms[..count - 1], e) {
          var i :| 0 <= i < count - 1 && Lookup(n, names, forms[..count - 1][i]) == Some(e);
          assert forms[..count][i] == forms[i];
        }
      }
    }
  }

  lemma {:induction false} LinksMean(s: Store, event: nat, cast: seq<nat>, count: nat)
    requires count <= |cast| && ValidId(s.events, event) && forall i :: 0 <= i < |cast| ==> ValidId(s.entities, cast[i])
    ensures var t := AddLinks(s, event, cast, count);
            t == s.(links := t.links) && forall l: Link ::
              l in t.links <==> l in s.links || (l.event == event && l.entity in cast[..count])
  {
    if count > 0 {
      LinksMean(s, event, cast, count - 1);
      assert cast[..count] == cast[..count - 1] + [cast[count - 1]];
    }
  }

  ghost predicate LinksToEvents(s: Store) {
    forall l: Link :: l in s.links ==> l.event <= |s.events|
  }

  /** An event is stored with exactly the entities its participants stand for. */
  lemma BeatMeans(n: Names, s: Store, names: map<string, nat>, beat: Beat, at: int)
    requires NamesOk(names, s) && LinksToEvents(s)
    ensures var t := AddBeat(n, s, names, beat, at).0;
            && t == s.(events := s.events + [NewRow(Event(beat.summary, 1), at)], links := t.links) && LinksToEvents(t)
            && forall l: Link :: l in t.links <==>
               l in s.links || (l.event == |s.events| + 1 && Plays(n, names, beat.participants, l.entity))
  {
    var cast := Cast(n, names, beat.participants, |beat.participants|).0;
    var begun := Commit(s, NewEvent(Event(beat.summary, 1), at, None));
    CastMeans(n, names, beat.participants, |beat.participants|);
    assert beat.participants[..|beat.participants|] == beat.participants;
    forall i | 0 <= i < |cast| ensures ValidId(begun.entities, cast[i]) { assert cast[i] in cast; }
    LinksMean(begun, |begun.events|, cast, |cast|);
    assert cast[..|cast|] == cast;
    hide Cast;
    hide AddLinks;
  }

  ghost predicate BeatStored(n: Names, s: Store, t: Store, names: map<string, nat>, beats: seq<Beat>, k: nat, at: int)
    requires k < |beats|
  {
    var id := |s.events| + k + 1;
    && id <= |t.events| && t.events[id - 1] == NewRow(Event(beats[k].summary, 1), at)
    && forall e: nat :: Link(id, e) in t.links <==> Plays(n, names, beats[k].participants, e)
  }

  /** The events of a chapter, in order, each with its own cast; earlier casts do not change. */
  lemma {:induction false} BeatsAreStored(n: Names, s: Store, names: map<string, nat>, beats: seq<Beat>, count: nat,
                                          at: int)
    requires count <= |beats| && NamesOk(names, s) && LinksToEvents(s)
    ensures var t := AddBeats(n, s, names, beats, count, at).0;
            && t == s.(events := t.events, links := t.links) && LinksToEvents(t)
            && |t.events| == |s.events| + count && s.events <= t.events
            && (forall l: Link :: l.event <= |s.events| ==> (l in t.links <==> l in s.links))
            && forall k :: 0 <= k < count ==> BeatStored(n, s, t, names, beats, k, at)
  {
    if count > 0 {
      BeatsAreStored(n, s, names, beats, count - 1, at);
      var prior := AddBeats(n, s, names, beats, count - 1, at).0;
      BeatMeans(n, prior, names, beats[count - 1], at);
      var t := AddBeats(n, s, names, beats, count, at).0;
      hide AddBeat;
      hide AddBeats;
      forall k | 0 <= k < count ensures BeatStored(n, s, t, names, beats, k, at) {
        if k < count - 1 {
          assert BeatStored(n, s, prior, names, beats, k, at);
        } else {
          forall e: nat ensures Link(|s.events| + k + 1, e) in t.links <==> Plays(n, names, beats[k].participants, e) {
            assert Link(|s.events| + k + 1, e) !in prior.links;
          }
        }
      }
    }
  }

  // ---- States ----

  /** On a built store the current state is the row that shows, if any. */
  lemma CurrentByShows(s: Store, entity: nat, at: int)
    requires Built(s, at)
    ensures forall i ::
            Shows(s, entity, at, i)
            ==> CurrentState(s, at, entity) == Some(Hit(i + 1, s.states[i].revealedAt, s.states[i].fact))
    ensures (forall i :: !Shows(s, entity, at, i)) ==> CurrentState(s, at, entity).None?
    ensures CurrentState(s, at, entity).Some? ==> Shows(s, entity, at, CurrentState(s, at, entity).value.id - 1)
  {
    CurrentStateIsTheState(s, entity, at);
    forall i | Shows(s, entity, at, i) ensures EntityVisible(s, at, entity) {
      assert Met(s, s.states[i].fact.entity, s.states[i].revealedAt);
    }
    hide CurrentState;
  }

  /** Nothing but this entity's states changed between two built stores. */
  ghost predicate OthersShow(s: Store, t: Store, entity: nat, at: int) {
    && |s.states| <= |t.states|
    && (forall i :: 0 <= i < |s.states| ==>
          t.states[i].fact == s.states[i].fact && t.states[i].revealedAt == s.states[i].revealedAt)
    && forall e, i :: e != entity ==> (Shows(t, e, at, i) <==> Shows(s, e, at, i))
  }

  lemma OthersStay(s: Store, t: Store, entity: nat, e: nat, at: int)
    requires Built(s, at) && Built(t, at) && OthersShow(s, t, entity, at) && e != entity
    ensures CurrentState(t, at, e) == CurrentState(s, at, e)
  {
    CurrentByShows(s, e, at);
    CurrentByShows(t, e, at);
    hide Built;
    hide CurrentState;
    if CurrentState(s, at, e).Some? {
      var i := CurrentState(s, at, e).value.id - 1;
      assert Shows(s, e, at, i) && Shows(t, e, at, i);
    } else {
      assert forall i :: !Shows(s, e, at, i);
    }
  }

  /** The entity's current state was said in this chapter. */
  predicate SaidHere(s: Store, entity: nat, at: int, note: string) {
    CurrentState(s, at, entity).Some? && CurrentState(s, at, entity).value.revealedAt == at
    && CurrentState(s, at, entity).value.fact == State(entity, note)
  }

  lemma NewStateShows(s: Store, entity: nat, note: string, at: int)
    requires Built(s, at) && ValidId(s.entities, entity) && !HasState(s, entity, at)
    ensures var t := Commit(s, NewState(State(entity, note), at, None));
            Built(t, at) && SaidHere(t, entity, at, note) && OthersShow(s, t, entity, at)
  {
    var t := Commit(s, NewState(State(entity, note), at, None));
    FittingWrite(s, NewState(State(entity, note), at, None), at);
    assert Shows(t, entity, at, |s.states|);
    CurrentByShows(t, entity, at);
    hide Built;
    hide CurrentState;
  }

  lemma TurnedStateShows(s: Store, entity: nat, id: nat, note: string, at: int)
    requires Built(s, at) && Shows(s, entity, at, id - 1) && s.states[id - 1].revealedAt < at
    ensures var t := Commit(s, ReplaceState(id, at, note));
            Built(t, at) && SaidHere(t, entity, at, note) && OthersShow(s, t, entity, at)
  {
    var t := Commit(s, ReplaceState(id, at, note));
    FittingWrite(s, ReplaceState(id, at, note), at);
    assert Shows(t, entity, at, |s.states|);
    CurrentByShows(t, entity, at);
    hide Built;
    hide CurrentState;
  }

  /** A state said of an entity is kept unless one was already said in this chapter. */
  lemma AdvanceMeans(s: Store, id: nat, state: Option<string>, at: int)
    requires Built(s, at) && ValidId(s.entities, id)
    ensures var t := AdvanceState(s, id, state, at);
            && Built(t, at) && OthersShow(s, t, id, at)
            && (if !SaysState(state) || (CurrentState(s, at, id).Some?
                                         && CurrentState(s, at, id).value.revealedAt == at) then t == s
                else SaidHere(t, id, at, state.value))
  {
    if SaysState(state) {
      CurrentByShows(s, id, at);
      var cur := CurrentState(s, at, id);
      if cur.Some? && cur.value.revealedAt < at {
        TurnedStateShows(s, id, cur.value.id, state.value, at);
      } else if cur.None? {
        assert !HasState(s, id, at);
        NewStateShows(s, id, state.value, at);
      } else {
        assert s.states[cur.value.id - 1].revealedAt <= at;
      }
    }
  }

  lemma SameStatesSameCurrent(s: Store, t: Store, e: nat, at: int)
    requires Built(s, at) && Built(t, at) && t.states == s.states
    ensures CurrentState(t, at, e) == CurrentState(s, at, e)
  {
    CurrentByShows(s, e, at);
    CurrentByShows(t, e, at);
    hide Built;
    hide CurrentState;
    assert forall i :: Shows(t, e, at, i) <==> Shows(s, e, at, i);
  }

  /** What one mention does to the current states: at most its own entity's changes, and only to what it says. */
  ghost predicate StateMoves(s: Store, t: Store, id: nat, state: Option<string>, at: int) {
    && (forall e: nat :: e != id ==> CurrentState(t, at, e) == CurrentState(s, at, e))
    && if !SaysState(state) || (CurrentState(s, at, id).Some? && CurrentState(s, at, id).value.revealedAt == at)
       then CurrentState(t, at, id) == CurrentState(s, at, id)
       else SaidHere(t, id, at, state.value)
  }

  lemma AdvanceMoves(s: Store, mid: Store, id: nat, state: Option<string>, at: int)
    requires Built(s, at) && Built(mid, at) && mid.states == s.states && ValidId(mid.entities, id)
    ensures StateMoves(s, AdvanceState(mid, id, state, at), id, state, at)
  {
    var t := AdvanceState(mid, id, state, at);
    AdvanceMeans(mid, id, state, at);
    SameStatesSameCurrent(s, mid, id, at);
    forall e: nat | e != id ensures CurrentState(t, at, e) == CurrentState(s, at, e) {
      SameStatesSameCurrent(s, mid, e, at);
      OthersStay(mid, t, id, e, at);
    }
  }

  /** A newly created entity has no state yet, so its first state is stored. */
  lemma FirstStateAdvances(s: Store, id: nat, state: Option<string>, at: int)
    requires Built(s, at) && forall k :: 0 <= k < |s.states| ==> s.states[k].fact.entity != id
    ensures FirstState(s, id, state, at) == AdvanceState(s, id, state, at)
  {
    CurrentByShows(s, id, at);
    assert forall i :: !Shows(s, id, at, i);
  }

  lemma MentionMoves(n: Names, s: Store, p: Progress, ms: seq<Mention>, ds: seq<Decision>, i: nat,
                     roster: seq<RosterEntry>, at: int)
    requires i < |ms| == |ds| && Sound(s, p, at) && RosterOk(roster, s) && AllReferBack(roster, ds)
             && Tracking(p, ds, i)
    ensures var q := StepMention(n, p, i, ms[i], ds[i], at);
            |q.resolved| == |p.resolved| + 1 && p.resolved <= q.resolved
            && StateMoves(p.store, q.store, q.resolved[|p.resolved|], ms[i].state, at)
  {
    hide StateMoves;
    var m := ms[i];
    match ds[i]
    case Merge(ref, _) =>
      TargetIsEntity(s, p, roster, ds, i, at);
      var id := Target(p, ref);
      FormsStep(n, p.store, p.names, m.aliases, |m.aliases|, id, at);
      AdvanceMoves(p.store, AddForms(n, p.store, p.names, m.aliases, |m.aliases|, id, at), id, m.state, at);
    case Create(_) =>
      CreatedMoves(n, s, p, i, m, at);
  }

  lemma CreatedMoves(n: Names, s: Store, p: Progress, i: nat, m: Mention, at: int)
    requires Sound(s, p, at)
    ensures var q := CreateMention(n, p, i, m, at);
            |q.resolved| == |p.resolved| + 1 && p.resolved <= q.resolved
            && StateMoves(p.store, q.store, q.resolved[|p.resolved|], m.state, at)
  {
    hide StateMoves;
    hide AddForms;
    hide Extends;
    var w := NewEntity(Entity(m.name, m.kind), at);
    var begun := Commit(p.store, w);
    var id := |begun.entities|;
    WriteSteps(s, p.store, w, at);
    forall k | 0 <= k < |p.store.states| ensures p.store.states[k].fact.entity != id {
      assert Met(p.store, p.store.states[k].fact.entity, p.store.states[k].revealedAt);
    }
    var aliased := AddForms(n, begun, map[], m.aliases, |m.aliases|, id, at);
    FormsStep(n, begun, map[], m.aliases, |m.aliases|, id, at);
    FirstStateAdvances(aliased, id, m.state, at);
    AdvanceMoves(p.store, aliased, id, m.state, at);
  }

  /** The first state said of an entity among the first `count` mentions. */
  function FirstSaid(resolved: seq<nat>, ms: seq<Mention>, entity: nat, count: nat): Option<string>
    requires count <= |ms| && count <= |resolved|
  {
    if count == 0 then None
    else
      var prior := FirstSaid(resolved, ms, entity, count - 1);
      if prior.None? && resolved[count - 1] == entity && SaysState(ms[count - 1].state) then ms[count - 1].state
        else prior
  }

  lemma {:induction false} FirstSaidPrefix(a: seq<nat>, b: seq<nat>, ms: seq<Mention>, entity: nat, count: nat)
    requires count <= |ms| && count <= |a| && a <= b
    ensures FirstSaid(a, ms, entity, count) == FirstSaid(b, ms, entity, count)
  {
    if count > 0 { FirstSaidPrefix(a, b, ms, entity, count - 1); }
  }

  /** For each entity: the first state said in the chapter, or what was current before. */
  predicate StateStands(s: Store, t: Store, resolved: seq<nat>, ms: seq<Mention>, entity: nat, count: nat, at: int)
    requires count <= |ms| && count <= |resolved|
  {
    var first := FirstSaid(resolved, ms, entity, count);
    if first.Some? then SaidHere(t, entity, at, first.value)
      else CurrentState(t, at, entity) == CurrentState(s, at, entity)
  }

  lemma StateStandsStep(s: Store, t: Store, u: Store, a: seq<nat>, b: seq<nat>, ms: seq<Mention>, entity: nat,
                        count: nat, at: int)
    requires 0 < count <= |ms| && |b| == count && |a| == count - 1 && a <= b
    requires StateStands(s, t, a, ms, entity, count - 1, at) && StateMoves(t, u, b[count - 1], ms[count - 1].state, at)
    requires CurrentState(s, at, entity).Some? ==> CurrentState(s, at, entity).value.revealedAt < at
    ensures StateStands(s, u, b, ms, entity, count, at)
  {
    FirstSaidPrefix(a, b, ms, entity, count - 1);
    hide CurrentState;
  }

  lemma OlderStates(s: Store, entity: nat, at: int)
    requires Built(s, at) && forall k :: 0 <= k < |s.states| ==> s.states[k].revealedAt < at
    ensures CurrentState(s, at, entity).Some? ==> CurrentState(s, at, entity).value.revealedAt < at
  {
    CurrentByShows(s, entity, at);
  }

  /** Of several states said of one entity in a chapter the first is kept; entities nothing is said of keep theirs. */
  lemma {:induction false} FirstStateWins(n: Names, s: Store, p: Progress, ms: seq<Mention>, ds: seq<Decision>,
                                          count: nat,
                                          roster: seq<RosterEntry>, at: int)
    requires count <= |ms| == |ds| && Sound(s, p, at) && p.store == s && p.resolved == []
    requires RosterOk(roster, s) && AllReferBack(roster, ds)
             && forall k :: 0 <= k < |s.states| ==> s.states[k].revealedAt < at
    ensures var q := Mentions(n, p, ms, ds, count, at);
            |q.resolved| == count && forall e: nat :: StateStands(s, q.store, q.resolved, ms, e, count, at)
  {
    hide StepMention;
    hide Sound;
    hide StateMoves;
    hide CurrentState;
    if count > 0 {
      var prior, q := Mentions(n, p, ms, ds, count - 1, at), Mentions(n, p, ms, ds, count, at);
      FirstStateWins(n, s, p, ms, ds, count - 1, roster, at);
      MentionsStep(n, s, p, ms, ds, count - 1, roster, at);
      MentionMoves(n, s, prior, ms, ds, count - 1, roster, at);
      assert Built(s, at) by { SoundIsBuilt(s, p, at); }
      forall e: nat ensures StateStands(s, q.store, q.resolved, ms, e, count, at) {
        assert StateStands(s, prior.store, prior.resolved, ms, e, count - 1, at);
        OlderStates(s, e, at);
        StateStandsStep(s, prior.store, q.store, prior.resolved, q.resolved, ms, e, count, at);
      }
    }
  }

  lemma SoundIsBuilt(s: Store, p: Progress, at: int)
    requires Sound(s, p, at)
    ensures Built(p.store, at)
  {
  }

  // ---- The whole chapter ----

  /** Each mention is resolved as the roster has it, and stores its entity and the aliases that are fresh to it. */
  ghost predicate CastStored(tools: Tools, s: Store, t: Store, ms: seq<Mention>, ds: seq<Decision>,
                             resolved: seq<nat>, at: int) {
    var n, roster := tools.names, RosterBefore(s, at);
    && |ds| == |ms| == |resolved| && ChapterDecided(n, tools.embedder, ms, roster, ds)
    && (forall i :: 0 <= i < |ms| ==> ResolvedTo(|s.entities|, ms, ds, resolved, i))
    && t.entities == s.entities + NewRows(CreatedEntities(ms, ds, |ms|), at)
    && t.aliases == s.aliases + NewRows(MentionedForms(n, roster, ms, ds, resolved, |ms|), at)
  }

  /**
   What the stored rows say about an extraction, under the one table of names that the roster and the mentions
   make.
   */
  ghost predicate StoryStored(n: Names, s: Store, t: Store, ex: Extraction, resolved: seq<nat>,
                              names: map<string, nat>, at: int) {
    && |resolved| == |ex.mentions|
    && Tells(n, Bearers(RosterBefore(s, at), ex.mentions, resolved, |ex.mentions|), names)
    && t.edges == s.edges + NewRows(Ties(n, names, ex.relations, |ex.relations|), at)
    && |t.events| == |s.events| + |ex.beats| && s.events <= t.events
    && (forall k :: 0 <= k < |ex.beats| ==> BeatStored(n, s, t, names, ex.beats, k, at))
    && (forall l: Link :: l.event <= |s.events| ==> (l in t.links <==> l in s.links))
    && (forall e: nat :: StateStands(s, t, resolved, ex.mentions, e, |ex.mentions|, at))
    && t.themes == s.themes + NewRows(ex.themes, at)
  }

  ghost predicate Says(tools: Tools, s: Store, t: Store, ex: Extraction, ds: seq<Decision>, resolved: seq<nat>,
                       names: map<string, nat>, at: int) {
    CastStored(tools, s, t, ex.mentions, ds, resolved, at) && StoryStored(tools.names, s, t, ex, resolved, names, at)
  }

  lemma LinksAreToEvents(s: Store, at: int)
    requires Built(s, at)
    ensures LinksToEvents(s)
  {
    forall l: Link | l in s.links ensures l.event <= |s.events| {
      var i :| 0 <= i < |s.links| && s.links[i] == l;
    }
  }

  function MentionDecisions(tools: Tools, s: Store, src: Source, ex: Extraction): seq<Decision> {
    Decisions(tools.names, tools.embedder, ex.mentions, |ex.mentions|, RosterBefore(s, src.ordinal))
  }

  /** The progress of an ingestion once every mention is stored. */
  function AfterMentions(tools: Tools, s: Store, src: Source, ex: Extraction): Progress {
    Mentions(tools.names, Start(tools.names, s, RosterBefore(s, src.ordinal)), ex.mentions,
             MentionDecisions(tools, s, src, ex), |ex.mentions|, src.ordinal)
  }

  ghost predicate StatesBefore(s: Store, at: int) {
    forall k :: 0 <= k < |s.states| ==> s.states[k].revealedAt < at
  }

  lemma MentionsSay(tools: Tools, s: Store, src: Source, ex: Extraction)
    requires Built(s, src.ordinal) && StatesBefore(s, src.ordinal)
    ensures var p, at := AfterMentions(tools, s, src, ex), src.ordinal;
            && Built(p.store, at) && NamesOk(p.names, p.store) && |p.resolved| == |ex.mentions|
            && p.store == s.(entities := p.store.entities, aliases := p.store.aliases, states := p.store.states)
            && CastStored(tools, s, p.store, ex.mentions, MentionDecisions(tools, s, src, ex), p.resolved, at)
            && Tells(tools.names, Bearers(RosterBefore(s, at), ex.mentions, p.resolved, |ex.mentions|), p.names)
            && forall e: nat :: StateStands(s, p.store, p.resolved, ex.mentions, e, |ex.mentions|, at)
  {
    hide Mentions;
    hide Extends;
    hide Built;
    hide Tells;
    hide StateStands;
    hide ChapterDecided;
    hide ResolvedTo;
    hide CreatedEntities;
    hide MentionedForms;
    hide NewRows;
    var n, at, ms := tools.names, src.ordinal, ex.mentions;
    var roster := RosterBefore(s, at);
    var ds := MentionDecisions(tools, s, src, ex);
    var start := Start(n, s, roster);
    RosterIsOk(s, if at - 1 > 0 then at - 1 else 0);
    RosterNamesOk(n, roster, |roster|, s);
    MergesReferBack(n, tools.embedder, ms, |ms|, roster);
    MentionsAreDecided(n, tools.embedder, ms, |ms|, roster);
    StepHere(s, at);
    MentionsStep(n, s, start, ms, ds, |ms|, roster, at);
    MentionsAreStored(n, s, roster, ms, ds, |ms|, at);
    NamesStandForMentions(n, s, roster, ms, ds, |ms|, at);
    FirstStateWins(n, s, start, ms, ds, |ms|, roster, at);
  }

  lemma BeatsFromRows(n: Names, s: Store, t: Store, u: Store, v: Store, names: map<string, nat>, beats: seq<Beat>,
                      at: int)
    requires |u.events| == |s.events| && v.events == t.events && v.links == t.links
    requires forall k :: 0 <= k < |beats| ==> BeatStored(n, s, t, names, beats, k, at)
    ensures forall k :: 0 <= k < |beats| ==> BeatStored(n, u, v, names, beats, k, at)
  {
    forall k | 0 <= k < |beats| ensures BeatStored(n, u, v, names, beats, k, at) {
      assert BeatStored(n, s, t, names, beats, k, at);
    }
  }

  /** Relations, events and themes add their own rows and leave what the mentions established. */
  lemma ToldStory(n: Names, s: Store, m: Store, names: map<string, nat>, ex: Extraction, at: int)
    requires NamesOk(names, m) && LinksToEvents(s)
    requires m == s.(entities := m.entities, aliases := m.aliases, states := m.states)
    ensures var linked := AddRelations(n, m, names, ex.relations, |ex.relations|, at).0;
            var told := AddBeats(n, linked, names, ex.beats, |ex.beats|, at).0;
            var t := AddThemes(told, ex.themes, |ex.themes|, at);
            && t == m.(edges := t.edges, events := t.events, links := t.links, themes := t.themes)
            && t.edges == s.edges + NewRows(Ties(n, names, ex.relations, |ex.relations|), at)
            && |t.events| == |s.events| + |ex.beats| && s.events <= t.events
            && (forall l: Link :: l.event <= |s.events| ==> (l in t.links <==> l in s.links))
            && (forall k :: 0 <= k < |ex.beats| ==> BeatStored(n, s, t, names, ex.beats, k, at))
            && t.themes == s.themes + NewRows(ex.themes, at)
  {
    TiesAreStored(n, m, names, ex.relations, |ex.relations|, at);
    var linked := AddRelations(n, m, names, ex.relations, |ex.relations|, at).0;
    BeatsAreStored(n, linked, names, ex.beats, |ex.beats|, at);
    var told := AddBeats(n, linked, names, ex.beats, |ex.beats|, at).0;
    ThemesAreStored(told, ex.themes, |ex.themes|, at);
    assert ex.themes[..|ex.themes|] == ex.themes;
    hide AddRelations;
    hide AddBeats;
    hide AddThemes;
    hide Ties;
    hide NewRows;
    hide BeatStored;
    BeatsFromRows(n, linked, told, s, AddThemes(told, ex.themes, |ex.themes|, at), names, ex.beats, at);
  }

  lemma DerivedSays(tools: Tools, s: Store, src: Source, ex: Extraction)
    requires Built(s, src.ordinal) && StatesBefore(s, src.ordinal)
    requires Built(Derive(tools, s, src, ex).0, src.ordinal)
    ensures var (t, report) := Derive(tools, s, src, ex);
            var p := AfterMentions(tools, s, src, ex);
            && t == s.(entities := t.entities, aliases := t.aliases, states := t.states, edges := t.edges,
                       events := t.events, links := t.links, themes := t.themes)
            && Says(tools, s, t, ex, MentionDecisions(tools, s, src, ex), report.resolved, p.names, src.ordinal)
  {
    hide Mentions;
    hide AddRelations;
    hide AddBeats;
    hide AddThemes;
    hide Built;
    hide Tells;
    hide BeatStored;
    hide CastStored;
    hide StateStands;
    hide NewRows;
    hide Ties;
    var p, n, at := AfterMentions(tools, s, src, ex), tools.names, src.ordinal;
    MentionsSay(tools, s, src, ex);
    LinksAreToEvents(s, at);
    ToldStory(n, s, p.store, p.names, ex, at);
    var (t, report) := Derive(tools, s, src, ex);
    assert report.resolved == p.resolved && t.states == p.store.states;
    StatesStay(s, p.store, t, p.resolved, ex.mentions, at);
    CastStays(tools, s, p.store, t, ex.mentions, MentionDecisions(tools, s, src, ex), p.resolved, at);
    hide Derive;
    hide AfterMentions;
    hide MentionDecisions;
  }

  lemma StatesStay(s: Store, m: Store, t: Store, resolved: seq<nat>, ms: seq<Mention>, at: int)
    requires Built(m, at) && Built(t, at) && t.states == m.states && |ms| == |resolved|
    requires forall e: nat :: StateStands(s, m, resolved, ms, e, |ms|, at)
    ensures forall e: nat :: StateStands(s, t, resolved, ms, e, |ms|, at)
  {
    hide Built;
    forall e: nat ensures StateStands(s, t, resolved, ms, e, |ms|, at) {
      SameStatesSameCurrent(m, t, e, at);
      assert StateStands(s, m, resolved, ms, e, |ms|, at);
      hide CurrentState;
    }
  }

  lemma CastStays(tools: Tools, s: Store, m: Store, t: Store, ms: seq<Mention>, ds: seq<Decision>, resolved: seq<nat>,
                  at: int)
    requires CastStored(tools, s, m, ms, ds, resolved, at) && t.entities == m.entities && t.aliases == m.aliases
    ensures CastStored(tools, s, t, ms, ds, resolved, at)
  {
  }

  ghost predicate SameStoryRows(s: Store, t: Store) {
    && t.entities == s.entities && t.aliases == s.aliases && t.edges == s.edges && t.events == s.events
    && t.links == s.links && t.states == s.states && t.themes == s.themes
  }

  /** What is said depends on the rows of the story only. */
  lemma SaysFromRows(tools: Tools, s: Store, begun: Store, derived: Store, t: Store, ex: Extraction,
                     ds: seq<Decision>, resolved: seq<nat>, names: map<string, nat>, at: int)
    requires Built(s, at) && Built(begun, at) && Built(derived, at) && Built(t, at)
    requires SameStoryRows(s, begun) && SameStoryRows(derived, t)
    requires Says(tools, begun, derived, ex, ds, resolved, names, at)
    ensures Says(tools, s, t, ex, ds, resolved, names, at)
  {
    hide Built;
    hide Tells;
    hide ChapterDecided;
    hide ResolvedTo;
    hide MentionedForms;
    RosterFromTables(s, begun, if at - 1 > 0 then at - 1 else 0);
    hide Roster;
    forall e: nat ensures StateStands(s, t, resolved, ex.mentions, e, |ex.mentions|, at) {
      SameStatesSameCurrent(s, begun, e, at);
      SameStatesSameCurrent(derived, t, e, at);
      assert StateStands(begun, derived, resolved, ex.mentions, e, |ex.mentions|, at);
      hide CurrentState;
    }
    hide StateStands;
    BeatsFromRows(tools.names, begun, derived, s, t, names, ex.beats, at);
    hide BeatStored;
  }

  ghost predicate Reports(tools: Tools, s: Store, out: Outcome, src: Source, ex: Extraction) {
    && (if FitsPin(tools, s.pin, src) then out.Ingested? else out == Raised(out.store, WrongEmbedding))
    && Files(tools, s, out.store, src, ex)
    && exists ds, resolved, names ::
         Says(tools, s, out.store, ex, ds, resolved, names, src.ordinal)
         && (out.Ingested? ==> out.report.resolved == resolved)
  }

  /**
   What an ingestion stores, whatever the extraction: the chapter's own rows; every mention's entity and fresh
   aliases; every resolved tie, every event with its cast, the first state of each entity and the themes. Only a
   vector that the pin does not fit raises an error, and then the chunk alone is missing.
   */
  lemma ChapterSays(tools: Tools, s: Store, src: Source, ex: Extraction)
    requires Built(s, src.ordinal) && !HasKey(s.chapters, src.key) && !OrdinalTaken(s.chapters, src.ordinal, None)
    requires StatesBefore(s, src.ordinal)
    ensures Reports(tools, s, Ingest(tools, s, src, ex), src, ex)
  {
    hide Derive;
    hide OpenChapter;
    hide Extends;
    hide Built;
    hide AfterMentions;
    hide Says;
    hide StatesBefore;
    hide Files;
    var at := src.ordinal;
    OpenSteps(tools, s, src, ex);
    OpenFiles(tools, s, src, ex);
    IngestSteps(tools, s, src, ex);
    var begun := OpenChapter(tools, s, src, ex).0;
    DeriveSteps(tools, begun, src, ex);
    var (derived, report) := Derive(tools, begun, src, ex);
    SameStatesBefore(s, begun, at);
    DerivedSays(tools, begun, src, ex);
    ChunkFiles(tools, s, begun, derived, report, src, ex);
    hide Ingest;
    SaysFromRows(tools, s, begun, derived, Ingest(tools, s, src, ex).store, ex,
                 MentionDecisions(tools, begun, src, ex), report.resolved, AfterMentions(tools, begun, src, ex).names,
                 at);
  }

  /** The chunk is the last row, and the only one that can be refused. */
  lemma ChunkFiles(tools: Tools, s: Store, begun: Store, derived: Store, report: Report, src: Source, ex: Extraction)
    requires !HasKey(s.chapters, src.key) && OpenChapter(tools, s, src, ex) == (begun, None)
    requires Derive(tools, begun, src, ex) == (derived, report)
    requires derived == begun.(entities := derived.entities, aliases := derived.aliases, states := derived.states,
                               edges := derived.edges, events := derived.events, links := derived.links,
                               themes := derived.themes)
    ensures var out := Ingest(tools, s, src, ex);
            && (if FitsPin(tools, s.pin, src) then out.Ingested? && out.report == report
                else out == Raised(out.store, WrongEmbedding))
            && SameStoryRows(derived, out.store) && Files(tools, s, out.store, src, ex)
  {
    hide Derive;
    OpenFiles(tools, s, src, ex);
    hide OpenChapter;
    assert derived.chapters[|s.chapters|].fact.key == src.key;
    assert derived.chunks + [] == derived.chunks;
    assert !AlreadyIngested(s, src.key, tools.hash(src.text));
    if EmbedsChunk(tools, src) { ChunkIsOpening(tools, s, src); }
  }

  lemma ChunkIsOpening(tools: Tools, s: Store, src: Source)
    requires tools.chunkEmbed.Some?
    ensures var c, o := ChunkOf(tools.chunkEmbed.value, src), OpeningChunk(tools, s.pin, src);
            c == o.(model := None)
  {
    assert Head(src.text, 500) == src.text[..Min(500, |src.text|)];
    assert Head(src.text, 2000) == src.text[..Min(2000, |src.text|)];
  }

  lemma SameStatesBefore(s: Store, t: Store, at: int)
    requires StatesBefore(s, at) && t.states == s.states
    ensures StatesBefore(t, at)
  {
  }
}
