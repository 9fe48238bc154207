/**
 Cast resolution: is a mention of this chapter an entity already on the roster, or a new one?
 Name normalisation and tokenisation are parameters; the layers and their order are the model.
 */
module Resolution {
  import opened Wrappers
  import opened StoryMemory

  datatype Mention = Mention(name: string, kind: EntityKind, aliases: seq<string>,
                             matchedRoster: bool, state: Option<string>)

  /** An entity of the store, or the entity that an earlier mention of this chapter will create. */
  datatype Ref = Known(id: nat) | Pending(index: nat)

  datatype RosterEntry = RosterEntry(name: string, kind: EntityKind, aliases: seq<string>, ref: Ref)

  datatype Layer = RosterLink | RosterFuzzy | Exact | AliasOverlap | Embedding

  datatype Decision = Merge(ref: Ref, layer: Layer) | Create(warnUnmatchedLink: bool)

  /** `norm` is the surface normaliser; `tokens` keeps the name material of a normalised form. */
  datatype Names = Names(norm: string -> string, tokens: string -> seq<string>) {
    function ProperTokens(form: string): seq<string> { tokens(norm(form)) }
    function TokenSet(form: string): set<string> { set t | t in ProperTokens(form) }
    predicate NameLike(form: string) { |ProperTokens(form)| >= 1 }

    /** The normalised forms that may be merged on: name-like only, never an epithet. */
    function MatchForms(name: string, aliases: seq<string>): set<string> {
      set f | f in [name] + aliases && NameLike(f) :: norm(f)
    }
  }

  /** Picks a same-typed roster entry when it is close enough with a clear margin. */
  type Embedder = (Mention, seq<RosterEntry>) -> Option<nat>

  function SameType(roster: seq<RosterEntry>, kind: EntityKind): (r: seq<RosterEntry>)
    ensures forall e :: e in r <==> e in roster && e.kind == kind
  {
    if roster == [] then []
    else
      var rest := SameType(roster[..|roster| - 1], kind);
      var e := roster[|roster| - 1];
      assert roster == roster[..|roster| - 1] + [e];
      if e.kind == kind then rest + [e] else rest
  }

  function FirstWith(roster: seq<RosterEntry>, good: RosterEntry -> bool): (e: Option<RosterEntry>)
    ensures e.Some? ==> e.value in roster && good(e.value)
    ensures e.None? ==> forall x :: x in roster ==> !good(x)
  {
    if roster == [] then None
    else if good(roster[0]) then Some(roster[0])
    else FirstWith(roster[1..], good)
  }

  function AllWith(roster: seq<RosterEntry>, good: RosterEntry -> bool): (r: seq<RosterEntry>)
    ensures forall e :: e in r <==> e in roster && good(e)
  {
    if roster == [] then []
    else if good(roster[0]) then [roster[0]] + AllWith(roster[1..], good)
    else AllWith(roster[1..], good)
  }

  predicate LinkedExactly(n: Names, m: Mention, e: RosterEntry) {
    n.NameLike(e.name) && n.norm(m.name) == n.norm(e.name)
  }

  predicate NamedExactly(n: Names, m: Mention, e: RosterEntry) {
    n.norm(m.name) == n.norm(e.name)
  }

  predicate TokensWithin(n: Names, m: Mention, e: RosterEntry) {
    n.TokenSet(m.name) <= n.TokenSet(e.name)
  }

  predicate SharesForm(n: Names, m: Mention, e: RosterEntry) {
    n.MatchForms(m.name, m.aliases) * n.MatchForms(e.name, e.aliases) != {}
  }

  function FuzzyHits(n: Names, m: Mention, roster: seq<RosterEntry>): seq<RosterEntry> {
    if m.matchedRoster && |n.TokenSet(m.name)| >= 2 then AllWith(roster, e => TokensWithin(n, m, e)) else []
  }

  /** The layers in order, cheapest first. */
  function ResolveOne(n: Names, embedder: Option<Embedder>, m: Mention, roster: seq<RosterEntry>): Decision {
    var same := SameType(roster, m.kind);
    var linked := if m.matchedRoster then FirstWith(same, e => LinkedExactly(n, m, e)) else None;
    if linked.Some? then Merge(linked.value.ref, RosterLink)
    else
      var hits := FuzzyHits(n, m, roster);
      if |hits| == 1 then Merge(hits[0].ref, RosterFuzzy)
      else
        var exact := if n.NameLike(m.name) then FirstWith(same, e => NamedExactly(n, m, e)) else None;
        if exact.Some? then Merge(exact.value.ref, Exact)
        else
          var overlap := FirstWith(same, e => SharesForm(n, m, e));
          if overlap.Some? then Merge(overlap.value.ref, AliasOverlap)
          else
            var near := if embedder.Some? && same != [] then embedder.value(m, same) else None;
            if near.Some? && near.value < |same| then Merge(same[near.value].ref, Embedding)
            else Create(m.matchedRoster)
  }

  /** The roster as it stands after the first `|ds|` mentions of the chapter. */
  function Grown(roster: seq<RosterEntry>, ms: seq<Mention>, ds: seq<Decision>): seq<RosterEntry>
    requires |ds| <= |ms|
  {
    if ds == [] then roster
    else
      var i := |ds| - 1;
      var before := Grown(roster, ms, ds[..i]);
      if ds[i].Create? then before + [EntryOf(ms, i)] else before
  }

  function Decisions(n: Names, embedder: Option<Embedder>, ms: seq<Mention>, count: nat,
                     roster: seq<RosterEntry>): (ds: seq<Decision>)
    requires count <= |ms|
    ensures |ds| == count
  {
    if count == 0 then []
    else
      var ds := Decisions(n, embedder, ms, count - 1, roster);
      ds + [ResolveOne(n, embedder, ms[count - 1], Grown(roster, ms, ds))]
  }

  /** Resolves the mentions in order, growing a working roster so that new names also collapse. */
  method ResolveChapter(n: Names, embedder: Option<Embedder>, ms: seq<Mention>, roster: seq<RosterEntry>)
    returns (out: seq<Decision>)
    ensures out == Decisions(n, embedder, ms, |ms|, roster)
    ensures ChapterDecided(n, embedder, ms, roster, out)
  {
    hide ChapterDecided;
    hide ResolveOne;
    var work := roster;
    out := [];
    var i := 0;
    while i < |ms|
      invariant 0 <= i <= |ms|
      invariant out == Decisions(n, embedder, ms, i, roster)
      invariant work == Grown(roster, ms, out)
    {
      var d := ResolveOne(n, embedder, ms[i], work);
      assert (out + [d])[..i] == out;
      out := out + [d];
      if d.Create? {
        work := work + [EntryOf(ms, i)];
      }
      i := i + 1;
    }
    MentionsAreDecided(n, embedder, ms, |ms|, roster);
  }

  // ---- What a merge refers to ----

  ghost predicate RefersBack(ref: Ref, roster: seq<RosterEntry>, ds: seq<Decision>, i: nat) {
    (exists e :: e in roster && e.ref == ref)
    || (ref.Pending? && ref.index < i && ref.index < |ds| && ds[ref.index].Create?)
  }

  ghost predicate AllReferBack(roster: seq<RosterEntry>, ds: seq<Decision>) {
    forall i :: 0 <= i < |ds| && ds[i].Merge? ==> RefersBack(ds[i].ref, roster, ds, i)
  }

  lemma {:induction false} GrownRefs(roster: seq<RosterEntry>, ms: seq<Mention>, ds: seq<Decision>)
    requires |ds| <= |ms|
    ensures forall e :: e in Grown(roster, ms, ds) ==> RefersBack(e.ref, roster, ds, |ds|)
  {
    if ds != [] {
      var i := |ds| - 1;
      GrownRefs(roster, ms, ds[..i]);
      forall e | e in Grown(roster, ms, ds) ensures RefersBack(e.ref, roster, ds, |ds|) {
        if e in Grown(roster, ms, ds[..i]) {
          assert RefersBack(e.ref, roster, ds[..i], i);
          if !exists x :: x in roster && x.ref == e.ref { assert ds[..i][e.ref.index] == ds[e.ref.index]; }
        }
      }
    }
  }

  lemma MergeTarget(n: Names, embedder: Option<Embedder>, m: Mention, roster: seq<RosterEntry>)
    ensures var d := ResolveOne(n, embedder, m, roster);
            d.Merge? ==> exists e :: e in roster && e.ref == d.ref
  {
    var same := SameType(roster, m.kind);
    var hits := FuzzyHits(n, m, roster);
    var d := ResolveOne(n, embedder, m, roster);
    if d.Merge? {
      match d.layer
      case RosterFuzzy => assert hits[0] in hits;
      case Embedding =>
        var near := embedder.value(m, same);
        assert same[near.value] in same;
      case _ =>
    }
  }

  /**
   Every merge of a chapter names an entity of the roster it was given, or the creation decided at an
   earlier index of the same chapter: the pending id is always there to look up.
   */
  lemma {:induction false} MergesReferBack(n: Names, embedder: Option<Embedder>, ms: seq<Mention>, count: nat,
                                           roster: seq<RosterEntry>)
    requires count <= |ms|
    ensures AllReferBack(roster, Decisions(n, embedder, ms, count, roster))
  {
    if count > 0 {
      var prior := Decisions(n, embedder, ms, count - 1, roster);
      var d := ResolveOne(n, embedder, ms[count - 1], Grown(roster, ms, prior));
      MergesReferBack(n, embedder, ms, count - 1, roster);
      GrownRefs(roster, ms, prior);
      MergeTarget(n, embedder, ms[count - 1], Grown(roster, ms, prior));
      ReferBackStep(roster, prior, d);
    }
  }

  lemma ReferBackStep(roster: seq<RosterEntry>, ds: seq<Decision>, d: Decision)
    requires AllReferBack(roster, ds)
    requires d.Merge? ==> RefersBack(d.ref, roster, ds, |ds|)
    ensures AllReferBack(roster, ds + [d])
  {
    forall i | 0 <= i < |ds| && ds[i].Merge? ensures RefersBack(ds[i].ref, roster, ds + [d], i) {
      assert RefersBack(ds[i].ref, roster, ds, i);
    }
  }

  // ---- What a merge rests on ----

  /**
   A merge never rests on a role epithet. Roster-link, exact and alias merges share a name-like form with
   an entry of the same type; a fuzzy merge has two name tokens or more, all in the name of one entry only.
   */
  lemma MergeEvidence(n: Names, embedder: Option<Embedder>, m: Mention, roster: seq<RosterEntry>)
    ensures var d := ResolveOne(n, embedder, m, roster);
            && (d.Merge? && d.layer in {RosterLink, Exact, AliasOverlap} ==>
                  exists e :: e in roster && e.ref == d.ref && e.kind == m.kind && SharesForm(n, m, e))
            && (d.Merge? && d.layer == RosterFuzzy ==>
                  |n.TokenSet(m.name)| >= 2
                  && exists e :: e in roster && e.ref == d.ref && TokensWithin(n, m, e)
                              && forall x :: x in roster && TokensWithin(n, m, x) ==> x == e)
  {
    var same := SameType(roster, m.kind);
    var hits := FuzzyHits(n, m, roster);
    var d := ResolveOne(n, embedder, m, roster);
    if d.Merge? {
      match d.layer
      case RosterLink =>
        var e := FirstWith(same, x => LinkedExactly(n, m, x)).value;
        SameNameSharesForm(n, m, e);
      case Exact =>
        var e := FirstWith(same, x => NamedExactly(n, m, x)).value;
        SameNameSharesForm(n, m, e);
      case AliasOverlap =>
        var e := FirstWith(same, x => SharesForm(n, m, x)).value;
        assert e in roster && e.kind == m.kind && SharesForm(n, m, e);
      case RosterFuzzy =>
        assert hits[0] in hits;
        forall x | x in roster && TokensWithin(n, m, x) ensures x == hits[0] { assert x in hits; }
      case Embedding =>
    }
  }

  lemma SameNameSharesForm(n: Names, m: Mention, e: RosterEntry)
    requires n.norm(m.name) == n.norm(e.name) && (n.NameLike(e.name) || n.NameLike(m.name))
    ensures SharesForm(n, m, e)
  {
    assert m.name in [m.name] + m.aliases && e.name in [e.name] + e.aliases;
    assert n.norm(m.name) in n.MatchForms(m.name, m.aliases) * n.MatchForms(e.name, e.aliases);
  }

  /** A mention known only by epithets has no merge key: without an embedder it can only be created. */
  lemma EpithetsNeverMerge(n: Names, m: Mention, roster: seq<RosterEntry>)
    requires forall f :: f in [m.name] + m.aliases ==> !n.NameLike(f)
    ensures ResolveOne(n, None, m, roster) == Create(m.matchedRoster)
  {
    var d := ResolveOne(n, None, m, roster);
    MergeEvidence(n, None, m, roster);
    assert n.MatchForms(m.name, m.aliases) == {};
    assert m.name in [m.name] + m.aliases;
    assert n.TokenSet(m.name) == {};
  }

  // ---- Which decision is made ----

  /** Two of one type bear the same name-like name. */
  ghost predicate SameNamed(n: Names, name: string, kind: EntityKind, other: string, otherKind: EntityKind) {
    kind == otherKind && n.NameLike(name) && n.norm(name) == n.norm(other)
  }

  ghost predicate SameName(n: Names, m: Mention, e: RosterEntry) {
    SameNamed(n, m.name, m.kind, e.name, e.kind)
  }

  ghost predicate SharesAForm(n: Names, m: Mention, e: RosterEntry) {
    e.kind == m.kind
    && exists f, g :: f in [m.name] + m.aliases && g in [e.name] + e.aliases
                      && n.NameLike(f) && n.NameLike(g) && n.norm(f) == n.norm(g)
  }

  ghost predicate NamesAll(n: Names, m: Mention, e: RosterEntry) {
    forall t :: t in n.ProperTokens(m.name) ==> t in n.ProperTokens(e.name)
  }

  ghost predicate TwoTokens(n: Names, m: Mention) {
    exists t, u :: t in n.ProperTokens(m.name) && u in n.ProperTokens(m.name) && t != u
  }

  /** The mention is linked, has two name tokens, and this entry alone, of whatever type, has them all. */
  ghost predicate LinksOnlyTo(n: Names, m: Mention, roster: seq<RosterEntry>, i: int)
    requires 0 <= i < |roster|
  {
    && m.matchedRoster && TwoTokens(n, m) && NamesAll(n, m, roster[i])
    && forall j :: 0 <= j < |roster| && NamesAll(n, m, roster[j]) ==> j == i
  }

  /** What a layer other than the embedding asks of an entry. */
  ghost predicate Suits(n: Names, m: Mention, roster: seq<RosterEntry>, i: int, layer: Layer)
    requires 0 <= i < |roster|
  {
    match layer
    case RosterLink => m.matchedRoster && SameName(n, m, roster[i])
    case RosterFuzzy => LinksOnlyTo(n, m, roster, i)
    case Exact => SameName(n, m, roster[i])
    case AliasOverlap => SharesAForm(n, m, roster[i])
    case Embedding => false
  }

  ghost predicate FirstFit(n: Names, m: Mention, roster: seq<RosterEntry>, i: int, layer: Layer)
    requires 0 <= i < |roster|
  {
    Suits(n, m, roster, i, layer) && forall j :: 0 <= j < i ==> !Suits(n, m, roster, j, layer)
  }

  ghost predicate NoFit(n: Names, m: Mention, roster: seq<RosterEntry>, layer: Layer) {
    forall j :: 0 <= j < |roster| ==> !Suits(n, m, roster, j, layer)
  }

  ghost predicate Earlier(x: Layer, y: Layer) {
    match y
    case RosterLink => false
    case RosterFuzzy => x.RosterLink?
    case Exact => x.RosterLink? || x.RosterFuzzy?
    case AliasOverlap => x.RosterLink? || x.RosterFuzzy? || x.Exact?
    case Embedding => !x.Embedding?
  }

  /** `same` lists the entries of the mention's type in roster order. */
  ghost predicate ListsSameType(same: seq<RosterEntry>, roster: seq<RosterEntry>, kind: EntityKind, at: seq<int>) {
    && |at| == |same|
    && (forall k :: 0 <= k < |at| ==> 0 <= at[k] < |roster| && roster[at[k]] == same[k])
    && (forall j, k :: 0 <= j < k < |at| ==> at[j] < at[k])
    && (forall i :: 0 <= i < |roster| ==> (roster[i].kind == kind <==> i in at))
  }

  /** No cheap layer applies: the embedder's pick of the same-typed entries, or else a new entity. */
  ghost predicate LeftToEmbedder(embedder: Option<Embedder>, m: Mention, roster: seq<RosterEntry>, d: Decision) {
    exists same, at ::
      && ListsSameType(same, roster, m.kind, at)
      && PickedFrom(embedder, m, same, d)
  }

  ghost predicate PickedFrom(embedder: Option<Embedder>, m: Mention, same: seq<RosterEntry>, d: Decision) {
    var pick: Option<nat> := if embedder.Some? && same != [] then embedder.value(m, same) else None;
    if pick.Some? && pick.value < |same| then d == Merge(same[pick.value].ref, Embedding)
    else d == Create(m.matchedRoster)
  }

  /** A merge goes to the first entry of the earliest layer that has one; there is one unless no layer has any. */
  ghost predicate Decided(n: Names, embedder: Option<Embedder>, m: Mention, roster: seq<RosterEntry>, d: Decision) {
    if d.Merge? && !d.layer.Embedding? then
      && (exists i :: 0 <= i < |roster| && FirstFit(n, m, roster, i, d.layer) && roster[i].ref == d.ref)
      && (forall layer :: Earlier(layer, d.layer) ==> NoFit(n, m, roster, layer))
    else
      (forall layer :: NoFit(n, m, roster, layer)) && LeftToEmbedder(embedder, m, roster, d)
  }

  lemma {:induction false} SameTypeLists(roster: seq<RosterEntry>, kind: EntityKind) returns (at: seq<int>)
    ensures ListsSameType(SameType(roster, kind), roster, kind, at)
  {
    at := [];
    if roster != [] {
      var last := |roster| - 1;
      var before := SameTypeLists(roster[..last], kind);
      ListsOneMore(SameType(roster[..last], kind), roster, kind, before);
      at := if roster[last].kind == kind then before + [last] else before;
    }
  }

  lemma ListsOneMore(same: seq<RosterEntry>, roster: seq<RosterEntry>, kind: EntityKind, at: seq<int>)
    requires roster != [] && ListsSameType(same, roster[..|roster| - 1], kind, at)
    ensures var last := |roster| - 1;
            if roster[last].kind == kind then ListsSameType(same + [roster[last]], roster, kind, at + [last])
            else ListsSameType(same, roster, kind, at)
  {
    var last := |roster| - 1;
    assert forall i :: 0 <= i < last ==> roster[..last][i] == roster[i];
    assert last !in at;
    assert forall i :: i in at + [last] <==> i in at || i == last;
  }

  ghost predicate FirstAt(roster: seq<RosterEntry>, kind: EntityKind, good: RosterEntry -> bool, i: int) {
    && 0 <= i < |roster| && roster[i].kind == kind && good(roster[i])
    && forall j :: 0 <= j < i && roster[j].kind == kind ==> !good(roster[j])
  }

  lemma {:induction false} FirstWithIsFirst(roster: seq<RosterEntry>, good: RosterEntry -> bool)
    ensures var e := FirstWith(roster, good);
            e.Some? ==> exists k :: 0 <= k < |roster| && roster[k] == e.value
                                    && forall j :: 0 <= j < k ==> !good(roster[j])
  {
    if roster != [] && !good(roster[0]) {
      FirstWithIsFirst(roster[1..], good);
      var e := FirstWith(roster, good);
      if e.Some? {
        var k :|
          0 <= k < |roster[1..]| && roster[1..][k] == e.value && forall j :: 0 <= j < k ==> !good(roster[1..][j]);
        forall j | 0 <= j < k + 1 ensures !good(roster[j]) {
          if j > 0 { assert roster[j] == roster[1..][j - 1]; }
        }
        assert roster[k + 1] == e.value;
      }
    }
  }

  lemma FirstOfListed(same: seq<RosterEntry>, roster: seq<RosterEntry>, kind: EntityKind, at: seq<int>,
                      good: RosterEntry -> bool, k: int)
    requires ListsSameType(same, roster, kind, at) && 0 <= k < |same| && good(same[k])
    requires forall j :: 0 <= j < k ==> !good(same[j])
    ensures FirstAt(roster, kind, good, at[k])
  {
    assert at[k] in at;
    forall j | 0 <= j < at[k] && roster[j].kind == kind ensures !good(roster[j]) {
      var l :| 0 <= l < |at| && at[l] == j;
      assert l < k;
    }
  }

  lemma NoneOfListed(same: seq<RosterEntry>, roster: seq<RosterEntry>, kind: EntityKind, at: seq<int>,
                     good: RosterEntry -> bool)
    requires ListsSameType(same, roster, kind, at) && forall e :: e in same ==> !good(e)
    ensures forall j :: 0 <= j < |roster| && roster[j].kind == kind ==> !good(roster[j])
  {
    forall j | 0 <= j < |roster| && roster[j].kind == kind ensures !good(roster[j]) {
      var l :| 0 <= l < |at| && at[l] == j;
      assert same[l] in same;
    }
  }

  /** The first good entry of a type, as an index of the whole roster. */
  lemma FirstOfType(roster: seq<RosterEntry>, kind: EntityKind, good: RosterEntry -> bool) returns (i: int)
    ensures var e := FirstWith(SameType(roster, kind), good);
            if e.Some? then FirstAt(roster, kind, good, i) && roster[i] == e.value
            else forall j :: 0 <= j < |roster| && roster[j].kind == kind ==> !good(roster[j])
  {
    var same := SameType(roster, kind);
    var at := SameTypeLists(roster, kind);
    FirstWithIsFirst(same, good);
    var e := FirstWith(same, good);
    i := 0;
    if e.Some? {
      var k :| 0 <= k < |same| && same[k] == e.value && forall j :: 0 <= j < k ==> !good(same[j]);
      FirstOfListed(same, roster, kind, at, good, k);
      i := at[k];
    } else {
      NoneOfListed(same, roster, kind, at, good);
    }
    hide SameType;
    hide FirstWith;
    hide FirstAt;
  }

  ghost predicate OnlyGood(roster: seq<RosterEntry>, good: RosterEntry -> bool, i: int) {
    0 <= i < |roster| && good(roster[i]) && forall j :: 0 <= j < |roster| && good(roster[j]) ==> j == i
  }

  lemma OnlyGoodInRest(roster: seq<RosterEntry>, good: RosterEntry -> bool, i: int)
    requires roster != [] && !good(roster[0])
    ensures OnlyGood(roster, good, i) <==> OnlyGood(roster[1..], good, i - 1)
  {
    var rest := roster[1..];
    assert forall j :: 0 <= j < |rest| ==> rest[j] == roster[j + 1];
    assert forall j :: 1 <= j < |roster| ==> rest[j - 1] == roster[j];
  }

  /** There is one hit exactly when one index, and no other, has an entry that is good. */
  lemma {:induction false} OneHit(roster: seq<RosterEntry>, good: RosterEntry -> bool)
    ensures |AllWith(roster, good)| == 1 <==> exists i :: OnlyGood(roster, good, i)
    ensures forall i :: OnlyGood(roster, good, i) ==> AllWith(roster, good) == [roster[i]]
  {
    if roster != [] {
      var rest := roster[1..];
      var tail := AllWith(rest, good);
      if !good(roster[0]) {
        OneHit(rest, good);
        forall i ensures OnlyGood(roster, good, i) <==> OnlyGood(rest, good, i - 1) { OnlyGoodInRest(roster, good, i); }
        if |tail| == 1 {
          var k :| OnlyGood(rest, good, k);
          assert OnlyGood(roster, good, k + 1);
        }
        assert forall i :: OnlyGood(roster, good, i) ==> roster[i] == rest[i - 1];
      } else if tail == [] {
        forall j | 1 <= j < |roster| ensures !good(roster[j]) { assert roster[j] in rest; }
        assert OnlyGood(roster, good, 0);
      } else {
        assert tail[0] in tail;
        var k :| 0 <= k < |rest| && rest[k] == tail[0];
        assert good(roster[k + 1]);
      }
    }
  }

  lemma TokensAsSets(n: Names, m: Mention)
    ensures |n.TokenSet(m.name)| >= 2 <==> TwoTokens(n, m)
  {
    var ts := n.TokenSet(m.name);
    if TwoTokens(n, m) {
      var t, u :| t in n.ProperTokens(m.name) && u in n.ProperTokens(m.name) && t != u;
      assert ts == {t, u} + (ts - {t, u});
    }
    if |ts| >= 2 {
      var t :| t in ts;
      assert |ts - {t}| >= 1;
      var u :| u in ts - {t};
      assert t in n.ProperTokens(m.name) && u in n.ProperTokens(m.name);
    }
  }

  lemma FormsAsSets(n: Names, m: Mention, e: RosterEntry)
    requires e.kind == m.kind
    ensures SharesForm(n, m, e) <==> SharesAForm(n, m, e)
  {
    var mine, theirs := n.MatchForms(m.name, m.aliases), n.MatchForms(e.name, e.aliases);
    if SharesForm(n, m, e) {
      var x :| x in mine * theirs;
      assert exists f :: f in [m.name] + m.aliases && n.NameLike(f) && n.norm(f) == x;
      assert exists g :: g in [e.name] + e.aliases && n.NameLike(g) && n.norm(g) == x;
    }
    if SharesAForm(n, m, e) {
      var f, g :| f in [m.name] + m.aliases && g in [e.name] + e.aliases
                  && n.NameLike(f) && n.NameLike(g) && n.norm(f) == n.norm(g);
      assert n.norm(f) in mine * theirs;
    }
  }

  /** What each layer finds is the first entry that fits it. */
  lemma LinkLayer(n: Names, m: Mention, roster: seq<RosterEntry>) returns (i: int)
    ensures var e := if m.matchedRoster then FirstWith(SameType(roster, m.kind), x => LinkedExactly(n, m, x)) else None;
            if e.Some? then 0 <= i < |roster| && FirstFit(n, m, roster, i, RosterLink) && roster[i] == e.value
            else NoFit(n, m, roster, RosterLink)
  {
    i := FirstOfType(roster, m.kind, x => LinkedExactly(n, m, x));
  }

  lemma ExactLayer(n: Names, m: Mention, roster: seq<RosterEntry>) returns (i: int)
    ensures var e := if n.NameLike(m.name) then FirstWith(SameType(roster, m.kind), x => NamedExactly(n, m, x))
                     else None;
            if e.Some? then 0 <= i < |roster| && FirstFit(n, m, roster, i, Exact) && roster[i] == e.value
            else NoFit(n, m, roster, Exact)
  {
    i := FirstOfType(roster, m.kind, x => NamedExactly(n, m, x));
  }

  lemma OverlapLayer(n: Names, m: Mention, roster: seq<RosterEntry>) returns (i: int)
    ensures var e := FirstWith(SameType(roster, m.kind), x => SharesForm(n, m, x));
            if e.Some? then 0 <= i < |roster| && FirstFit(n, m, roster, i, AliasOverlap) && roster[i] == e.value
            else NoFit(n, m, roster, AliasOverlap)
  {
    i := FirstOfType(roster, m.kind, x => SharesForm(n, m, x));
    forall e: RosterEntry | e.kind == m.kind ensures SharesForm(n, m, e) <==> SharesAForm(n, m, e) {
      FormsAsSets(n, m, e);
    }
  }

  lemma FuzzyLayer(n: Names, m: Mention, roster: seq<RosterEntry>) returns (i: int)
    ensures var hits := FuzzyHits(n, m, roster);
            if |hits| == 1 then 0 <= i < |roster| && FirstFit(n, m, roster, i, RosterFuzzy) && roster[i] == hits[0]
            else NoFit(n, m, roster, RosterFuzzy)
  {
    TokensAsSets(n, m);
    forall e ensures TokensWithin(n, m, e) <==> NamesAll(n, m, e) {
      assert forall t :: t in n.TokenSet(m.name) <==> t in n.ProperTokens(m.name);
      assert forall t :: t in n.TokenSet(e.name) <==> t in n.ProperTokens(e.name);
    }
    i := 0;
    if m.matchedRoster && TwoTokens(n, m) {
      var good := x => TokensWithin(n, m, x);
      OneHit(roster, good);
      if |AllWith(roster, good)| == 1 {
        i :| OnlyGood(roster, good, i);
      }
      forall j | 0 <= j < |roster| ensures LinksOnlyTo(n, m, roster, j) <==> OnlyGood(roster, good, j) { }
    }
  }

  lemma NothingFitsEmbedding(n: Names, m: Mention, roster: seq<RosterEntry>)
    ensures NoFit(n, m, roster, Embedding)
  {
  }

  /** Every mention is decided by the first entry of the earliest layer that has one. */
  lemma EarliestLayerDecides(n: Names, embedder: Option<Embedder>, m: Mention, roster: seq<RosterEntry>)
    ensures Decided(n, embedder, m, roster, ResolveOne(n, embedder, m, roster))
  {
    var at := SameTypeLists(roster, m.kind);
    var link := LinkLayer(n, m, roster);
    var fuzzy := FuzzyLayer(n, m, roster);
    var exact := ExactLayer(n, m, roster);
    var overlap := OverlapLayer(n, m, roster);
    NothingFitsEmbedding(n, m, roster);
    hide Suits;
    hide FuzzyHits;
    hide SameType;
    hide FirstWith;
    hide FirstFit;
    hide NoFit;
    var d := ResolveOne(n, embedder, m, roster);
    if d.Create? || d.layer.Embedding? {
      assert PickedFrom(embedder, m, SameType(roster, m.kind), d);
      assert LeftToEmbedder(embedder, m, roster, d);
      forall layer ensures NoFit(n, m, roster, layer) {
        match layer case RosterLink => case RosterFuzzy => case Exact => case AliasOverlap => case Embedding =>
      }
    }
    hide ListsSameType;
  }

  lemma FitIsAFit(n: Names, m: Mention, roster: seq<RosterEntry>, i: int, layer: Layer)
    requires 0 <= i < |roster| && FirstFit(n, m, roster, i, layer)
    ensures !NoFit(n, m, roster, layer)
  {
  }

  lemma LeftOnce(embedder: Option<Embedder>, m: Mention, roster: seq<RosterEntry>, d: Decision, e: Decision)
    requires LeftToEmbedder(embedder, m, roster, d) && LeftToEmbedder(embedder, m, roster, e)
    ensures d == e
  {
    hide ListsSameType;
    var same, at :| ListsSameType(same, roster, m.kind, at) && PickedFrom(embedder, m, same, d);
    var same', at' :| ListsSameType(same', roster, m.kind, at') && PickedFrom(embedder, m, same', e);
    OneListing(same, same', roster, m.kind, at, at');
  }

  /** There is only one way to decide a mention. */
  lemma DecidedOnce(n: Names, embedder: Option<Embedder>, m: Mention, roster: seq<RosterEntry>, d: Decision,
                    e: Decision)
    requires Decided(n, embedder, m, roster, d) && Decided(n, embedder, m, roster, e)
    ensures d == e
  {
    hide Suits;
    hide LeftToEmbedder;
    forall layer, i | 0 <= i < |roster| && FirstFit(n, m, roster, i, layer) ensures !NoFit(n, m, roster, layer) {
      FitIsAFit(n, m, roster, i, layer);
    }
    hide NoFit;
    if d.Merge? && !d.layer.Embedding? {
      var i :| 0 <= i < |roster| && FirstFit(n, m, roster, i, d.layer) && roster[i].ref == d.ref;
      var j :| 0 <= j < |roster| && FirstFit(n, m, roster, j, e.layer) && roster[j].ref == e.ref;
      assert d.layer == e.layer;
      assert i == j;
    } else {
      LeftOnce(embedder, m, roster, d, e);
    }
  }

  lemma OneListing(same: seq<RosterEntry>, other: seq<RosterEntry>, roster: seq<RosterEntry>, kind: EntityKind,
                   at: seq<int>, ta: seq<int>)
    requires ListsSameType(same, roster, kind, at) && ListsSameType(other, roster, kind, ta)
    ensures same == other
  {
    forall i ensures i in at <==> i in ta {
      if 0 <= i < |roster| { assert roster[i].kind == kind <==> i in at; }
    }
    SamePositions(at, ta);
  }

  lemma HasFirst(xs: seq<int>)
    ensures xs != [] ==> xs[0] in xs
  {
  }

  lemma {:induction false} SamePositions(at: seq<int>, ta: seq<int>)
    requires forall j, k :: 0 <= j < k < |at| ==> at[j] < at[k]
    requires forall j, k :: 0 <= j < k < |ta| ==> ta[j] < ta[k]
    requires forall i :: i in at <==> i in ta
    ensures at == ta
  {
    HasFirst(at);
    HasFirst(ta);
    if at != [] {
      var m, n := |at| - 1, |ta| - 1;
      assert at[m] in at && ta[n] in ta;
      assert at[m] in ta && ta[n] in at;
      assert at[m] == ta[n];
      forall i ensures i in at[..m] <==> i in ta[..n] {
        assert i in at[..m] <==> i in at && i != at[m];
        assert i in ta[..n] <==> i in ta && i != ta[n];
      }
      SamePositions(at[..m], ta[..n]);
      assert at == at[..m] + [at[m]] && ta == ta[..n] + [ta[n]];
    }
  }

  /**
   Without an embedder an entity is created exactly when no entry of the type shares a name-like form, and the
   mention is not linked to the one entry that has all of its name tokens.
   */
  lemma CreatedExactly(n: Names, m: Mention, roster: seq<RosterEntry>)
    ensures ResolveOne(n, None, m, roster).Create? <==>
              && (forall i :: 0 <= i < |roster| ==> !SharesAForm(n, m, roster[i]))
              && (forall i :: 0 <= i < |roster| ==> !LinksOnlyTo(n, m, roster, i))
  {
    var d := ResolveOne(n, None, m, roster);
    EarliestLayerDecides(n, None, m, roster);
    if d.Create? {
      assert NoFit(n, m, roster, AliasOverlap) && NoFit(n, m, roster, RosterFuzzy);
      forall i | 0 <= i < |roster| ensures !SharesAForm(n, m, roster[i]) && !LinksOnlyTo(n, m, roster, i) {
        assert !Suits(n, m, roster, i, AliasOverlap) && !Suits(n, m, roster, i, RosterFuzzy);
      }
    } else {
      assert !d.layer.Embedding?;
      var i :| 0 <= i < |roster| && FirstFit(n, m, roster, i, d.layer) && roster[i].ref == d.ref;
      assert Suits(n, m, roster, i, d.layer);
      if d.layer.RosterLink? || d.layer.Exact? { SameNameIsAForm(n, m, roster[i]); }
    }
  }

  lemma SameNameIsAForm(n: Names, m: Mention, e: RosterEntry)
    requires SameName(n, m, e)
    ensures SharesAForm(n, m, e)
  {
    assert m.name in [m.name] + m.aliases && e.name in [e.name] + e.aliases;
  }

  // ---- A chapter of mentions ----

  /** The roster that a mention meets: the given entries, then the earlier creations in the order of their mentions. */
  ghost predicate ListsCreated(work: seq<RosterEntry>, roster: seq<RosterEntry>, ms: seq<Mention>, ds: seq<Decision>)
    requires |ds| <= |ms|
  {
    && roster <= work
    && (forall k :: |roster| <= k < |work| ==> CreationOf(work[k], ms, ds))
    && (forall j, k :: |roster| <= j < k < |work| ==>
          work[j].ref.Pending? && work[k].ref.Pending? && work[j].ref.index < work[k].ref.index)
    && (forall i :: 0 <= i < |ds| && ds[i].Create? ==>
          exists k :: |roster| <= k < |work| && work[k].ref == Pending(i))
  }

  /** The entry that a created mention adds to the roster. */
  function EntryOf(ms: seq<Mention>, i: nat): RosterEntry
    requires i < |ms|
  {
    RosterEntry(ms[i].name, ms[i].kind, ms[i].aliases, Pending(i))
  }

  ghost predicate CreationOf(e: RosterEntry, ms: seq<Mention>, ds: seq<Decision>)
    requires |ds| <= |ms|
  {
    e.ref.Pending? && e.ref.index < |ds| && ds[e.ref.index].Create? && e == EntryOf(ms, e.ref.index)
  }

  lemma {:induction false} GrownLists(roster: seq<RosterEntry>, ms: seq<Mention>, ds: seq<Decision>)
    requires |ds| <= |ms|
    ensures ListsCreated(Grown(roster, ms, ds), roster, ms, ds)
  {
    if ds != [] {
      var i := |ds| - 1;
      var before := Grown(roster, ms, ds[..i]);
      GrownLists(roster, ms, ds[..i]);
      ListsOneMoreMention(before, roster, ms, ds);
    }
  }

  lemma ListsOneMoreMention(before: seq<RosterEntry>, roster: seq<RosterEntry>, ms: seq<Mention>, ds: seq<Decision>)
    requires 0 < |ds| <= |ms| && ListsCreated(before, roster, ms, ds[..|ds| - 1])
    ensures var i := |ds| - 1;
            if ds[i].Create? then ListsCreated(before + [EntryOf(ms, i)], roster, ms, ds)
            else ListsCreated(before, roster, ms, ds)
  {
    var i := |ds| - 1;
    var e := EntryOf(ms, i);
    var work := if ds[i].Create? then before + [e] else before;
    forall k | |roster| <= k < |work| ensures CreationOf(work[k], ms, ds) {
      if k < |before| { assert CreationOf(before[k], ms, ds[..i]); }
    }
    forall j, k | |roster| <= j < k < |work|
      ensures work[j].ref.Pending? && work[k].ref.Pending? && work[j].ref.index < work[k].ref.index
    {
      assert CreationOf(before[j], ms, ds[..i]);
    }
    forall j | 0 <= j < |ds| && ds[j].Create? ensures exists k :: |roster| <= k < |work| && work[k].ref == Pending(j) {
      if j < i {
        assert ds[..i][j].Create?;
        var k :| |roster| <= k < |before| && before[k].ref == Pending(j);
        assert work[k].ref == Pending(j);
      } else {
        assert work[|before|].ref == Pending(j);
      }
    }
  }

  /** Each mention is decided against the given roster and the creations before it. */
  ghost predicate DecidedAt(n: Names, embedder: Option<Embedder>, ms: seq<Mention>, roster: seq<RosterEntry>,
                            ds: seq<Decision>, i: nat)
    requires i < |ds| <= |ms|
  {
    exists work :: ListsCreated(work, roster, ms, ds[..i]) && Decided(n, embedder, ms[i], work, ds[i])
  }

  ghost predicate ChapterDecided(n: Names, embedder: Option<Embedder>, ms: seq<Mention>, roster: seq<RosterEntry>,
                                 ds: seq<Decision>)
    requires |ds| <= |ms|
  {
    forall i: nat :: i < |ds| ==> DecidedAt(n, embedder, ms, roster, ds, i)
  }

  lemma {:induction false} MentionsAreDecided(n: Names, embedder: Option<Embedder>, ms: seq<Mention>, count: nat,
                                              roster: seq<RosterEntry>)
    requires count <= |ms|
    ensures ChapterDecided(n, embedder, ms, roster, Decisions(n, embedder, ms, count, roster))
  {
    if count > 0 {
      var prior := Decisions(n, embedder, ms, count - 1, roster);
      MentionsAreDecided(n, embedder, ms, count - 1, roster);
      var work := Grown(roster, ms, prior);
      GrownLists(roster, ms, prior);
      EarliestLayerDecides(n, embedder, ms[count - 1], work);
      OneMoreDecided(n, embedder, ms, roster, work, prior, ResolveOne(n, embedder, ms[count - 1], work));
    }
  }

  lemma OneMoreDecided(n: Names, embedder: Option<Embedder>, ms: seq<Mention>, roster: seq<RosterEntry>,
                       work: seq<RosterEntry>, prior: seq<Decision>, d: Decision)
    requires |prior| < |ms| && ChapterDecided(n, embedder, ms, roster, prior)
    requires ListsCreated(work, roster, ms, prior) && Decided(n, embedder, ms[|prior|], work, d)
    ensures ChapterDecided(n, embedder, ms, roster, prior + [d])
  {
    hide Decided;
    hide ListsCreated;
    var ds := prior + [d];
    assert ds[..|prior|] == prior;
    forall i: nat | i < |ds| ensures DecidedAt(n, embedder, ms, roster, ds, i) {
      if i < |prior| {
        assert DecidedAt(n, embedder, ms, roster, prior, i);
        assert prior[..i] == ds[..i];
      }
    }
  }

  /**
   Nothing known is created again: a created mention shares no name-like form with an entry of its type on the
   roster, nor with one that was created earlier in the chapter.
   */
  lemma NothingKnownIsCreated(n: Names, embedder: Option<Embedder>, ms: seq<Mention>, roster: seq<RosterEntry>,
                              ds: seq<Decision>, i: nat)
    requires i < |ds| <= |ms| && ChapterDecided(n, embedder, ms, roster, ds) && ds[i].Create?
    ensures forall k :: 0 <= k < |roster| ==> !SharesAForm(n, ms[i], roster[k])
    ensures forall j :: 0 <= j < i && ds[j].Create? ==> !SharesAForm(n, ms[i], EntryOf(ms, j))
  {
    assert DecidedAt(n, embedder, ms, roster, ds, i);
    var work: seq<RosterEntry> :| ListsCreated(work, roster, ms, ds[..i]) && Decided(n, embedder, ms[i], work, ds[i]);
    assert NoFit(n, ms[i], work, AliasOverlap);
    forall k | 0 <= k < |work| ensures !SharesAForm(n, ms[i], work[k]) {
      assert !Suits(n, ms[i], work, k, AliasOverlap);
    }
    hide SharesAForm;
    assert forall k :: 0 <= k < |roster| ==> work[k] == roster[k];
    forall j | 0 <= j < i && ds[j].Create? ensures !SharesAForm(n, ms[i], EntryOf(ms, j)) {
      assert ds[..i][j].Create?;
      var k :| |roster| <= k < |work| && work[k].ref == Pending(j);
      assert CreationOf(work[k], ms, ds[..i]);
    }
  }
}
