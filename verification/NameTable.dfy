/**
 What the names of a chapter stand for. A name stands for the last roster entry or mention that is called so;
 a form that nothing is called stands for the first that lists it as an alias; any other form for nothing.
 */
module NameTable {
  import opened Wrappers
  import opened StoryMemory
  import opened BookmarkView
  import opened StoryTime
  import opened Resolution
  import opened Ingestion

  datatype Bearer = Bearer(name: string, aliases: seq<string>, id: nat)

  /** The first `count` roster entries. */
  function RosterBearers(roster: seq<RosterEntry>, count: nat): seq<Bearer>
    requires count <= |roster|
  {
    if count == 0 then []
    else
      var e := roster[count - 1];
      RosterBearers(roster, count - 1) + [Bearer(e.name, e.aliases, IdOf(e.ref))]
  }

  /** The first `count` mentions, each with the entity it resolved to. */
  function MentionBearers(ms: seq<Mention>, resolved: seq<nat>, count: nat): seq<Bearer>
    requires count <= |ms| && count <= |resolved|
  {
    if count == 0 then []
    else
      var m := ms[count - 1];
      MentionBearers(ms, resolved, count - 1) + [Bearer(m.name, m.aliases, resolved[count - 1])]
  }

  // ---- What a key stands for ----

  predicate IsCalled(n: Names, b: Bearer, key: string) {
    n.norm(b.name) == key
  }

  predicate Lists(n: Names, b: Bearer, key: string) {
    exists j :: 0 <= j < |b.aliases| && n.norm(b.aliases[j]) == key
  }

  ghost predicate LastCalled(n: Names, bs: seq<Bearer>, key: string, i: int) {
    0 <= i < |bs| && IsCalled(n, bs[i], key) && forall j :: i < j < |bs| ==> !IsCalled(n, bs[j], key)
  }

  ghost predicate FirstListing(n: Names, bs: seq<Bearer>, key: string, i: int) {
    0 <= i < |bs| && Lists(n, bs[i], key) && forall j :: 0 <= j < i ==> !Lists(n, bs[j], key)
  }

  ghost predicate StandsFor(n: Names, bs: seq<Bearer>, key: string, found: Option<nat>) {
    if exists i :: 0 <= i < |bs| && IsCalled(n, bs[i], key) then
      exists i :: LastCalled(n, bs, key, i) && found == Some(bs[i].id)
    else if exists i :: 0 <= i < |bs| && Lists(n, bs[i], key) then
      exists i :: FirstListing(n, bs, key, i) && found == Some(bs[i].id)
    else found.None?
  }

  /** A key stands for one thing only. */
  lemma StandsForOne(n: Names, bs: seq<Bearer>, key: string, a: Option<nat>, b: Option<nat>)
    requires StandsFor(n, bs, key, a) && StandsFor(n, bs, key, b)
    ensures a == b
  {
    hide IsCalled;
    hide Lists;
    if exists i :: 0 <= i < |bs| && IsCalled(n, bs[i], key) {
      var i :| LastCalled(n, bs, key, i) && a == Some(bs[i].id);
      var j :| LastCalled(n, bs, key, j) && b == Some(bs[j].id);
      assert i == j;
    } else if exists i :: 0 <= i < |bs| && Lists(n, bs[i], key) {
      var i :| FirstListing(n, bs, key, i) && a == Some(bs[i].id);
      var j :| FirstListing(n, bs, key, j) && b == Some(bs[j].id);
      assert i == j;
    }
  }

  function Entry(names: map<string, nat>, key: string): Option<nat> {
    if key in names then Some(names[key]) else None
  }

  /** Every key of the table stands for what it should, and no other is in it. */
  ghost predicate Tells(n: Names, bs: seq<Bearer>, names: map<string, nat>) {
    forall key :: StandsFor(n, bs, key, Entry(names, key))
  }

  /** There is only one such table. */
  lemma OneTable(n: Names, bs: seq<Bearer>, a: map<string, nat>, b: map<string, nat>)
    requires Tells(n, bs, a) && Tells(n, bs, b)
    ensures a == b
  {
    forall key ensures Entry(a, key) == Entry(b, key) { StandsForOne(n, bs, key, Entry(a, key), Entry(b, key)); }
    hide StandsFor;
    assert forall key :: key in a || key in b ==> Entry(a, key) == Entry(b, key);
    assert a.Keys == b.Keys;
  }

  // ---- One more bearer ----

  /** The table once one more roster entry or mention is entered. */
  function Entered(n: Names, names: map<string, nat>, b: Bearer): map<string, nat> {
    WithForms(n, names[n.norm(b.name) := b.id], b.aliases, |b.aliases|, b.id)
  }

  lemma {:induction false} FormsEntry(n: Names, names: map<string, nat>, forms: seq<string>, count: nat, id: nat,
                                      key: string)
    requires count <= |forms|
    ensures Entry(WithForms(n, names, forms, count, id), key)
            == if key in names then Some(names[key])
               else if exists j :: 0 <= j < count && n.norm(forms[j]) == key then Some(id) else None
  {
    if count > 0 { FormsEntry(n, names, forms, count - 1, id, key); }
  }

  lemma EnteredEntry(n: Names, names: map<string, nat>, b: Bearer, key: string)
    ensures Entry(Entered(n, names, b), key)
            == if IsCalled(n, b, key) then Some(b.id)
               else if key in names then Some(names[key]) else if Lists(n, b, key) then Some(b.id) else None
  {
    FormsEntry(n, names[n.norm(b.name) := b.id], b.aliases, |b.aliases|, b.id, key);
  }

  /** A new bearer takes over the key it is called, and gets one it lists only if that stood for nothing. */
  lemma OneMoreBearer(n: Names, bs: seq<Bearer>, b: Bearer, key: string, was: Option<nat>)
    requires StandsFor(n, bs, key, was)
    ensures StandsFor(n, bs + [b], key,
                      if IsCalled(n, b, key) then Some(b.id)
                      else if was.Some? then was else if Lists(n, b, key) then Some(b.id) else None)
  {
    hide IsCalled;
    hide Lists;
    var all := bs + [b];
    assert all[|bs|] == b && forall i :: 0 <= i < |bs| ==> all[i] == bs[i];
    if IsCalled(n, b, key) {
      assert LastCalled(n, all, key, |bs|);
    } else if exists i :: 0 <= i < |bs| && IsCalled(n, bs[i], key) {
      var i :| LastCalled(n, bs, key, i) && was == Some(bs[i].id);
      assert LastCalled(n, all, key, i);
    } else if exists i :: 0 <= i < |bs| && Lists(n, bs[i], key) {
      var i :| FirstListing(n, bs, key, i) && was == Some(bs[i].id);
      assert FirstListing(n, all, key, i);
    } else if Lists(n, b, key) {
      assert FirstListing(n, all, key, |bs|);
    }
  }

  lemma EnteredTells(n: Names, bs: seq<Bearer>, names: map<string, nat>, b: Bearer)
    requires Tells(n, bs, names)
    ensures Tells(n, bs + [b], Entered(n, names, b))
  {
    forall key ensures StandsFor(n, bs + [b], key, Entry(Entered(n, names, b), key)) {
      EnteredEntry(n, names, b, key);
      OneMoreBearer(n, bs, b, key, Entry(names, key));
    }
  }

  // ---- The tables of an ingestion ----

  lemma NothingTold(n: Names)
    ensures Tells(n, [], map[])
  {
  }

  lemma {:induction false} RosterTells(n: Names, roster: seq<RosterEntry>, count: nat)
    requires count <= |roster|
    ensures Tells(n, RosterBearers(roster, count), RosterNames(n, roster, count))
  {
    hide Tells;
    hide WithForms;
    if count == 0 {
      NothingTold(n);
    } else {
      var e := roster[count - 1];
      RosterTells(n, roster, count - 1);
      EnteredTells(n, RosterBearers(roster, count - 1), RosterNames(n, roster, count - 1),
                   Bearer(e.name, e.aliases, IdOf(e.ref)));
    }
  }

  function Bearers(roster: seq<RosterEntry>, ms: seq<Mention>, resolved: seq<nat>, count: nat): seq<Bearer>
    requires count <= |ms| && count <= |resolved|
  {
    RosterBearers(roster, |roster|) + MentionBearers(ms, resolved, count)
  }

  lemma {:induction false} MentionBearersPrefix(ms: seq<Mention>, a: seq<nat>, b: seq<nat>, count: nat)
    requires count <= |ms| && count <= |a| && a <= b
    ensures MentionBearers(ms, a, count) == MentionBearers(ms, b, count)
  {
    if count > 0 { MentionBearersPrefix(ms, a, b, count - 1); }
  }

  lemma MentionEnters(n: Names, p: Progress, i: nat, m: Mention, d: Decision, at: int)
    ensures var q := StepMention(n, p, i, m, d, at);
            && |q.resolved| == |p.resolved| + 1 && p.resolved <= q.resolved
            && q.names == Entered(n, p.names, Bearer(m.name, m.aliases, q.resolved[|p.resolved|]))
  {
  }

  /** After any number of mentions, the table tells what the roster and those mentions stand for. */
  lemma {:induction false} NamesStandForMentions(n: Names, s: Store, roster: seq<RosterEntry>, ms: seq<Mention>,
                                                 ds: seq<Decision>, count: nat, at: int)
    requires count <= |ms| == |ds|
    ensures var q := Mentions(n, Start(n, s, roster), ms, ds, count, at);
            |q.resolved| == count && Tells(n, Bearers(roster, ms, q.resolved, count), q.names)
  {
    hide StepMention;
    hide Tells;
    if count == 0 {
      RosterTells(n, roster, |roster|);
      assert RosterBearers(roster, |roster|) + [] == RosterBearers(roster, |roster|);
    } else {
      var p := Mentions(n, Start(n, s, roster), ms, ds, count - 1, at);
      var q := Mentions(n, Start(n, s, roster), ms, ds, count, at);
      var m := ms[count - 1];
      NamesStandForMentions(n, s, roster, ms, ds, count - 1, at);
      MentionEnters(n, p, count - 1, m, ds[count - 1], at);
      MentionBearersPrefix(ms, p.resolved, q.resolved, count - 1);
      var b := Bearer(m.name, m.aliases, q.resolved[count - 1]);
      var was := Bearers(roster, ms, p.resolved, count - 1);
      EnteredTells(n, was, p.names, b);
      assert was + [b] == Bearers(roster, ms, q.resolved, count);
    }
  }

  // ---- The roster ----

  /** The roster depends on the entities and their aliases only. */
  lemma RosterFromTables(s: Store, t: Store, b: int)
    requires t.entities == s.entities && t.aliases == s.aliases
    ensures Roster(t, b) == Roster(s, b)
  {
    forall e ensures AliasesOf(t, b, e) == AliasesOf(s, b, e) {
      SelectPointwise(s.aliases, t.aliases, b, AliasOf(s, b, e), AliasOf(t, b, e));
    }
    hide AliasesOf;
    forall kind ensures RosterOf(t, b, kind) == RosterOf(s, b, kind) {}
  }
}
