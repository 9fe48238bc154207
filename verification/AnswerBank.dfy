/**
 The bank of reviewed answers: an LRU that gives up paraphrases before the questions they were reviewed
 under, resumable plans, and a checkpoint that is trimmed until it fits and always loads again.
 */
module AnswerBank {
  import opened Wrappers
  import opened OrderedDict

  /** A book, its incarnation and the digest of everything an answer depends on. */
  datatype Scope = Scope(book: string, incarnation: string, digest: string)

  datatype Key = Key(scope: Scope, question: string)

  datatype Row<P> = Row(reviewed: string, payload: P, suggested: bool)

  type Rows<P> = seq<Item<Key, Row<P>>>
  type Plans<L> = seq<Item<Scope, L>>

  const MAX_PLANS := 16

  function PlanLimit(limit: nat): nat {
    if limit < MAX_PLANS then limit else MAX_PLANS
  }

  predicate IsParaphrase<P(!new)>(x: Item<Key, Row<P>>) {
    x.key.question != x.value.reviewed
  }

  // ---- Eviction ----

  /** The first paraphrase, or the oldest row when there is none. */
  function Victim<P(!new)>(rows: Rows<P>): (v: nat)
    requires rows != []
    ensures v < |rows| && (forall i :: 0 <= i < v ==> !IsParaphrase(rows[i]))
    ensures !IsParaphrase(rows[v]) ==> v == 0 && forall i :: 0 <= i < |rows| ==> !IsParaphrase(rows[i])
  {
    var p := FirstParaphrase(rows, 0);
    if p.Some? then p.value else 0
  }

  function FirstParaphrase<P(!new)>(rows: Rows<P>, from: nat): (p: Option<nat>)
    requires from <= |rows|
    ensures p.Some? ==>
            from <= p.value < |rows| && IsParaphrase(rows[p.value])
            && forall i :: from <= i < p.value ==> !IsParaphrase(rows[i])
    ensures p.None? ==> forall i :: from <= i < |rows| ==> !IsParaphrase(rows[i])
    decreases |rows| - from
  {
    if from == |rows| then None else if IsParaphrase(rows[from]) then Some(from) else FirstParaphrase(rows, from + 1)
  }

  function RemoveAt<T>(s: seq<T>, i: nat): seq<T>
    requires i < |s|
  {
    s[..i] + s[i + 1..]
  }

  /** `n` victims gone. */
  function Evicted<P(!new)>(rows: Rows<P>, n: nat): Rows<P>
    requires n <= |rows|
    decreases n
  {
    if n == 0 then rows else Evicted(RemoveAt(rows, Victim(rows)), n - 1)
  }

  lemma RemovedMembers<K(!new), V(!new)>(d: seq<Item<K, V>>, i: nat)
    requires DistinctKeys(d) && i < |d|
    ensures DistinctKeys(RemoveAt(d, i)) && forall x :: x in RemoveAt(d, i) <==> x in d && x != d[i]
  {
    var r := RemoveAt(d, i);
    forall x | x in d && x != d[i] ensures x in r {
      var j :| 0 <= j < |d| && d[j] == x;
      assert r[if j < i then j else j - 1] == x;
    }
  }

  ghost predicate NoParaphrase<P(!new)>(rows: Rows<P>) {
    forall x :: x in rows ==> !IsParaphrase(x)
  }

  /** Nothing is added, and an original is given up only when no paraphrase is left. */
  ghost predicate Spares<P(!new)>(rows: Rows<P>, kept: Rows<P>) {
    (forall x :: x in kept ==> x in rows) && ((exists x :: x in rows && x !in kept && !IsParaphrase(x))
                                              ==> NoParaphrase(kept))
  }

  lemma SparesItself<P(!new)>(rows: Rows<P>)
    ensures Spares(rows, rows)
  {
  }

  lemma SparesTwice<P(!new)>(a: Rows<P>, b: Rows<P>, c: Rows<P>)
    requires Spares(a, b) && Spares(b, c)
    ensures Spares(a, c)
  {
  }

  lemma RemovedVictim<P(!new)>(rows: Rows<P>)
    requires DistinctKeys(rows) && rows != []
    ensures DistinctKeys(RemoveAt(rows, Victim(rows))) && Spares(rows, RemoveAt(rows, Victim(rows)))
  {
    RemovedMembers(rows, Victim(rows));
  }

  /** Whatever is evicted was a paraphrase, unless no paraphrase is left; the rest is untouched. */
  lemma {:induction false} EvictionSparesOriginals<P(!new)>(rows: Rows<P>, n: nat)
    requires DistinctKeys(rows) && n <= |rows|
    ensures |Evicted(rows, n)| == |rows| - n && DistinctKeys(Evicted(rows, n)) && Spares(rows, Evicted(rows, n))
    decreases n
  {
    hide Spares;
    hide DistinctKeys;
    if n == 0 {
      SparesItself(rows);
    } else {
      var r := RemoveAt(rows, Victim(rows));
      RemovedVictim(rows);
      EvictionSparesOriginals(r, n - 1);
      SparesTwice(rows, r, Evicted(r, n - 1));
      hide Victim;
    }
  }

  lemma {:induction false} EvictOneMore<P(!new)>(rows: Rows<P>, n: nat)
    requires n < |rows|
    ensures |Evicted(rows, n)| == |rows| - n
    ensures Evicted(rows, n + 1) == RemoveAt(Evicted(rows, n), Victim(Evicted(rows, n)))
    decreases n
  {
    if n > 0 { EvictOneMore(RemoveAt(rows, Victim(rows)), n - 1); }
  }

  function Excess(size: nat, limit: nat): nat {
    if size > limit then size - limit else 0
  }

  method Evict<P(!new)>(rows: Rows<P>, limit: nat) returns (r: Rows<P>)
    ensures r == Evicted(rows, Excess(|rows|, limit))
  {
    r := rows;
    ghost var n := 0;
    while |r| > limit
      invariant n <= Excess(|rows|, limit) && |r| == |rows| - n && r == Evicted(rows, n)
      decreases |r|
    {
      EvictOneMore(rows, n);
      r, n := RemoveAt(r, Victim(r)), n + 1;
    }
  }

  // ---- Checkpoints ----

  datatype Content<P, L> = Content(rows: Rows<P>, prepared: seq<Scope>, plans: Plans<L>)

  datatype Checkpoint<P, L> = Checkpoint(version: string, content: Content<P, L>, digest: nat)

  const ANSWER_VERSION := "reviewed-answer-v8-cited-question-bindings"
  const MAX_BYTES := 2 * 1024 * 1024

  /** The bank's surroundings: the length of an encoded checkpoint, the hash, the validators, the hash in a plan. */
  datatype Codec<!P, !L> = Codec(size: Content<P, L> -> nat, hash: Content<P, L> -> nat,
                                 validAnswer: P -> bool, validPlan: L -> bool, factsHash: L -> string)

  /** One trimming step: the oldest plan goes first, then rows in eviction order. */
  function Shrunk<P(!new), L(!new)>(c: Content<P, L>): Content<P, L> {
    if c.plans != [] then c.(plans := c.plans[1..])
    else if c.rows != [] then c.(rows := RemoveAt(c.rows, Victim(c.rows)))
    else c
  }

  function Shrinks<P(!new), L(!new)>(c: Content<P, L>, n: nat): Content<P, L> {
    if n == 0 then c else Shrunk(Shrinks(c, n - 1))
  }

  predicate Fits<P(!new), L(!new)>(codec: Codec<P, L>, c: Content<P, L>) {
    codec.size(c) <= MAX_BYTES
  }

  /** Trims as little as makes the checkpoint fit. */
  method TrimToFit<P(!new), L(!new)>(codec: Codec<P, L>, content: Content<P, L>)
    returns (c: Content<P, L>, ghost n: nat)
    requires Fits(codec, Content([], content.prepared, []))
    ensures Fits(codec, c) && c == Shrinks(content, n) && c.prepared == content.prepared
    ensures forall m :: 0 <= m < n ==> !Fits(codec, Shrinks(content, m))
  {
    c, n := content, 0;
    while !Fits(codec, c)
      invariant c == Shrinks(content, n) && c.prepared == content.prepared
      invariant forall m :: 0 <= m < n ==> !Fits(codec, Shrinks(content, m))
      decreases |c.plans| + |c.rows|
    {
      assert c == Content(c.rows, content.prepared, c.plans);
      c, n := Shrunk(c), n + 1;
    }
  }

  predicate WellFormedKey(key: Key) {
    2 <= |key.question| <= 500
  }

  predicate LoadableRow<P(!new), L(!new)>(codec: Codec<P, L>, x: Item<Key, Row<P>>) {
    WellFormedKey(x.key) && 2 <= |x.value.reviewed| <= 500 && codec.validAnswer(x.value.payload)
  }

  predicate Acceptable<P(!new), L(!new)>(codec: Codec<P, L>, limit: nat, k: Checkpoint<P, L>) {
    && Fits(codec, k.content) && k.version == ANSWER_VERSION && k.digest == codec.hash(k.content)
    && |k.content.rows| <= limit && |k.content.prepared| <= limit && |k.content.plans| <= PlanLimit(limit)
    && (forall i :: 0 <= i < |k.content.rows| ==> LoadableRow(codec, k.content.rows[i]))
    && (forall i :: 0 <= i < |k.content.plans| ==> codec.validPlan(k.content.plans[i].value))
  }

  /** `d.update(pairs)`: a repeated key keeps its place and takes the last value. */
  method Update<K(==,!new), V(!new)>(pairs: seq<Item<K, V>>) returns (d: seq<Item<K, V>>)
    ensures DistinctKeys(d) && |d| <= |pairs|
    ensures DistinctKeys(pairs) ==> d == pairs
    ensures forall x :: x in d ==> x in pairs
  {
    d := [];
    for n := 0 to |pairs|
      invariant DistinctKeys(d) && |d| <= n && (DistinctKeys(pairs) ==> d == pairs[..n])
      invariant forall x :: x in d ==> x in pairs
    {
      var i := IndexOf(d, pairs[n].key);
      if i < 0 { d := d + [pairs[n]]; } else { d := d[i := pairs[n]]; }
    }
  }

  predicate DistinctScopes(s: seq<Scope>) {
    forall i, j :: 0 <= i < j < |s| ==> s[i] != s[j]
  }

  /** What is left after `n` steps: the oldest plans go first, then rows in eviction order, and nothing else. */
  function Left<P(!new), L(!new)>(c: Content<P, L>, n: nat): Content<P, L> {
    if n <= |c.plans| then c.(plans := c.plans[n..])
    else if n - |c.plans| <= |c.rows| then c.(plans := [], rows := Evicted(c.rows, n - |c.plans|))
    else c.(plans := [], rows := [])
  }

  lemma LeftStep<P(!new), L(!new)>(c: Content<P, L>, n: nat)
    ensures Shrunk(Left(c, n)) == Left(c, n + 1)
  {
    if n < |c.plans| {
      assert c.plans[n..][1..] == c.plans[n + 1..];
    } else {
      RowsLeftStep(c.(plans := []), n - |c.plans|);
      hide Shrunk;
      hide Evicted;
      assert c.plans[|c.plans|..] == [];
    }
  }

  lemma RowsLeftStep<P(!new), L(!new)>(c: Content<P, L>, m: nat)
    requires c.plans == []
    ensures Shrunk(Left(c, m)) == Left(c, m + 1)
    ensures Left(c, 0) == c
  {
    if m < |c.rows| { EvictOneMore(c.rows, m); }
    if m == |c.rows| > 0 { EvictOneMore(c.rows, m - 1); }
    hide Victim;
  }

  /** Trimming by steps leaves what it should. */
  lemma {:induction false} ShrinksInOrder<P(!new), L(!new)>(c: Content<P, L>, n: nat)
    ensures Shrinks(c, n) == Left(c, n)
  {
    if n == 0 {
      assert c.plans[0..] == c.plans;
    } else {
      hide Left;
      hide Shrunk;
      ShrinksInOrder(c, n - 1);
      LeftStep(c, n - 1);
    }
  }

  /** What a checkpoint that was trimmed to fit holds, for a bank within its limits. */
  lemma TrimmedFacts<P(!new), L(!new)>(c: Content<P, L>, n: nat)
    requires DistinctKeys(c.rows) && DistinctKeys(c.plans)
    ensures var t := Shrinks(c, n);
            && DistinctKeys(t.rows) && |t.rows| <= |c.rows| && Spares(c.rows, t.rows)
            && DistinctKeys(t.plans) && |t.plans| <= |c.plans| && (forall x :: x in t.plans ==> x in c.plans)
            && (t.plans != [] ==> t.rows == c.rows)
  {
    ShrinksInOrder(c, n);
    var m := n - |c.plans|;
    if 0 <= m <= |c.rows| { EvictionSparesOriginals(c.rows, m); }
    hide Shrinks;
    if m > |c.rows| { assert NoParaphrase<P>([]); }
  }

  ghost predicate IsTrimmed<P(!new), L(!new)>(codec: Codec<P, L>, full: Content<P, L>, t: Content<P, L>) {
    exists n: nat :: t == Shrinks(full, n) && Fits(codec, t)
      && forall m :: 0 <= m < n ==> !Fits(codec, Shrinks(full, m))
  }

  lemma SparedAreHeld<P(!new)>(rows: Rows<P>, kept: Rows<P>)
    requires Spares(rows, kept)
    ensures forall x :: x in kept ==> x in rows
  {
  }

  lemma TrimmedHolds<P(!new), L(!new)>(codec: Codec<P, L>, full: Content<P, L>, t: Content<P, L>)
    requires DistinctKeys(full.rows) && DistinctKeys(full.plans) && IsTrimmed(codec, full, t)
    ensures Fits(codec, t) && t.prepared == full.prepared
    ensures DistinctKeys(t.rows) && |t.rows| <= |full.rows| && Spares(full.rows, t.rows)
    ensures DistinctKeys(t.plans) && |t.plans| <= |full.plans| && (forall x :: x in t.plans ==> x in full.plans)
    ensures t.plans != [] ==> t.rows == full.rows
  {
    var n: nat :| t == Shrinks(full, n) && Fits(codec, t) && forall m :: 0 <= m < n ==> !Fits(codec, Shrinks(full, m));
    TrimmedFacts(full, n);
    hide Fits;
    hide Spares;
    hide DistinctKeys;
    ShrinksInOrder(full, n);
  }

  ghost predicate AllLoadable<P(!new), L(!new)>(codec: Codec<P, L>, rows: Rows<P>) {
    forall x :: x in rows ==> LoadableRow(codec, x)
  }

  ghost predicate AllValid<P(!new), L(!new)>(codec: Codec<P, L>, plans: Plans<L>) {
    forall x :: x in plans ==> codec.validPlan(x.value)
  }

  lemma LoadableByIndex<P(!new), L(!new)>(codec: Codec<P, L>, rows: Rows<P>, plans: Plans<L>)
    requires AllLoadable(codec, rows) && AllValid(codec, plans)
    ensures forall i :: 0 <= i < |rows| ==> LoadableRow(codec, rows[i])
    ensures forall i :: 0 <= i < |plans| ==> codec.validPlan(plans[i].value)
  {
    forall i | 0 <= i < |rows| ensures LoadableRow(codec, rows[i]) { assert rows[i] in rows; }
    forall i | 0 <= i < |plans| ensures codec.validPlan(plans[i].value) { assert plans[i] in plans; }
  }

  /** Every checkpoint that is written for well-formed questions is accepted when it is read back. */
  lemma CheckpointIsAccepted<P(!new), L(!new)>(codec: Codec<P, L>, limit: nat, full: Content<P, L>, t: Content<P, L>)
    requires DistinctKeys(full.rows) && |full.rows| <= limit && |full.prepared| <= limit
    requires DistinctKeys(full.plans) && |full.plans| <= PlanLimit(limit)
    requires AllLoadable(codec, full.rows) && AllValid(codec, full.plans) && IsTrimmed(codec, full, t)
    ensures Acceptable(codec, limit, Checkpoint(ANSWER_VERSION, t, codec.hash(t)))
    ensures DistinctKeys(t.rows) && DistinctKeys(t.plans) && t.prepared == full.prepared
  {
    hide IsTrimmed;
    hide LoadableRow;
    hide Fits;
    TrimmedHolds(codec, full, t);
    SparedAreHeld(full.rows, t.rows);
    hide Spares;
    assert AllLoadable(codec, t.rows) && AllValid(codec, t.plans);
    LoadableByIndex(codec, t.rows, t.plans);
  }

  // ---- The bank ----

  function NewRow<P(!new)>(rows: Rows<P>, key: Key, payload: P, reviewed: string): Row<P> {
    var question := if reviewed == "" then key.question else reviewed;
    var prior := Get(rows, key);
    Row(question, payload, prior.Some? && prior.value.suggested && question == key.question
        && prior.value.reviewed == key.question)
  }

  predicate SameIncarnation(a: Scope, b: Scope) {
    a.book == b.book && a.incarnation == b.incarnation
  }

  ghost predicate OnePlanEach<L(!new)>(plans: Plans<L>) {
    forall i, j :: 0 <= i < j < |plans| ==> !SameIncarnation(plans[i].key, plans[j].key)
  }

  function Prepared(attempted: seq<Item<Scope, bool>>): seq<Scope> {
    seq(|attempted|, i requires 0 <= i < |attempted| => attempted[i].key)
  }

  /** A checkpoint without rows and plans always fits. */
  ghost predicate Roomy<P(!new), L(!new)>(codec: Codec<P, L>, limit: nat) {
    forall prepared: seq<Scope> :: |prepared| <= limit ==> Fits(codec, Content([], prepared, []))
  }

  function Marked(prepared: seq<Scope>): seq<Item<Scope, bool>> {
    seq(|prepared|, i requires 0 <= i < |prepared| => Item(prepared[i], true))
  }

  lemma MarkedIsPrepared(prepared: seq<Scope>)
    ensures Prepared(Marked(prepared)) == prepared
    ensures DistinctScopes(prepared) ==> DistinctKeys(Marked(prepared))
  {
  }

  predicate Readable<P(!new), L(!new)>(codec: Codec<P, L>, limit: nat, file: Option<Checkpoint<P, L>>) {
    file.Some? && Acceptable(codec, limit, file.value)
  }

  ghost predicate WithoutRepeats<P(!new), L(!new)>(c: Content<P, L>) {
    DistinctKeys(c.rows) && DistinctScopes(c.prepared) && DistinctKeys(c.plans)
  }

  ghost predicate AllAnswered<P(!new), L(!new)>(codec: Codec<P, L>, rows: Rows<P>) {
    forall x :: x in rows ==> codec.validAnswer(x.value.payload)
  }

  lemma AcceptedIsValid<P(!new), L(!new)>(codec: Codec<P, L>, limit: nat, k: Checkpoint<P, L>)
    requires Acceptable(codec, limit, k)
    ensures AllAnswered(codec, k.content.rows) && AllValid(codec, k.content.plans)
  {
    hide Fits;
    forall x | x in k.content.rows ensures codec.validAnswer(x.value.payload) {
      var i :| 0 <= i < |k.content.rows| && k.content.rows[i] == x;
      assert LoadableRow(codec, k.content.rows[i]);
    }
  }

  /** Reads the checkpoint, all of it or nothing. */
  method Load<P(!new), L(!new)>(limit: nat, codec: Codec<P, L>, file: Option<Checkpoint<P, L>>)
    returns (rows: Rows<P>, attempted: seq<Item<Scope, bool>>, plans: Plans<L>)
    ensures DistinctKeys(rows) && |rows| <= limit && AllAnswered(codec, rows)
    ensures DistinctKeys(attempted) && |attempted| <= limit
    ensures DistinctKeys(plans) && |plans| <= PlanLimit(limit) && AllValid(codec, plans)
    ensures !Readable(codec, limit, file) ==> rows == [] && attempted == [] && plans == []
    ensures Readable(codec, limit, file) && WithoutRepeats(file.value.content) ==>
              Content(rows, Prepared(attempted), plans) == file.value.content
  {
    if !Readable(codec, limit, file) { return [], [], []; }
    var content := file.value.content;
    AcceptedIsValid(codec, limit, file.value);
    MarkedIsPrepared(content.prepared);
    hide LoadableRow;
    hide Fits;
    rows := Update(content.rows);
    plans := Update(content.plans);
    attempted := Update(Marked(content.prepared));
  }

  // ---- What a reader is offered ----

  predicate InScope<P(!new)>(x: Item<Key, Row<P>>, scope: Scope, reviewed: string) {
    x.key.scope == scope && x.value.reviewed == reviewed
  }

  /** What the rows from `from` on offer for a question: the original if held, else the newest paraphrase. */
  ghost predicate Represents<P(!new)>(rows: Rows<P>, scope: Scope, from: nat, u: Row<P>) {
    exists k :: from <= k < |rows| && RepresentedBy(rows, scope, from, u, k)
  }

  ghost predicate RepresentedBy<P(!new)>(rows: Rows<P>, scope: Scope, from: nat, u: Row<P>, k: nat)
    requires k < |rows|
  {
    && rows[k].key.scope == scope && rows[k].value == u
    && (IsParaphrase(rows[k]) ==>
          && (forall j :: from <= j < |rows| && InScope(rows[j], scope, u.reviewed) ==> IsParaphrase(rows[j]))
          && forall j :: k < j < |rows| ==> !InScope(rows[j], scope, u.reviewed))
  }

  ghost predicate DistinctQuestions<P(!new)>(unique: seq<Row<P>>) {
    forall i, j :: 0 <= i < j < |unique| ==> unique[i].reviewed != unique[j].reviewed
  }

  predicate Asks<P(!new)>(unique: seq<Row<P>>, reviewed: string) {
    exists i :: 0 <= i < |unique| && unique[i].reviewed == reviewed
  }

  /** One row for every reviewed question of the scope. */
  ghost predicate OncePerQuestion<P(!new)>(rows: Rows<P>, scope: Scope, from: nat, unique: seq<Row<P>>) {
    && DistinctQuestions(unique) && (forall i :: 0 <= i < |unique| ==> Represents(rows, scope, from, unique[i]))
    && forall j :: from <= j < |rows| && rows[j].key.scope == scope ==> Asks(unique, rows[j].value.reviewed)
  }

  /** Passing over a row of another scope, or a paraphrase of a question already seen, changes nothing. */
  lemma RepresentsStill<P(!new)>(rows: Rows<P>, scope: Scope, from: nat, u: Row<P>)
    requires 0 < from <= |rows| && Represents(rows, scope, from, u)
    requires InScope(rows[from - 1], scope, u.reviewed) ==> IsParaphrase(rows[from - 1])
    ensures Represents(rows, scope, from - 1, u)
  {
    var k :| from <= k < |rows| && RepresentedBy(rows, scope, from, u, k);
    assert RepresentedBy(rows, scope, from - 1, u, k);
  }

  lemma OriginalRepresents<P(!new)>(rows: Rows<P>, scope: Scope, from: nat)
    requires from < |rows| && rows[from].key.scope == scope && !IsParaphrase(rows[from])
    ensures Represents(rows, scope, from, rows[from].value)
  {
    assert RepresentedBy(rows, scope, from, rows[from].value, from);
  }

  lemma NewQuestionRepresents<P(!new)>(rows: Rows<P>, scope: Scope, from: nat, unique: seq<Row<P>>)
    requires from < |rows| && rows[from].key.scope == scope && OncePerQuestion(rows, scope, from + 1, unique)
    requires !Asks(unique, rows[from].value.reviewed)
    ensures Represents(rows, scope, from, rows[from].value)
  {
    assert forall j :: from < j < |rows| ==> !InScope(rows[j], scope, rows[from].value.reviewed);
    assert RepresentedBy(rows, scope, from, rows[from].value, from);
  }

  /** What one more row does to the offers, newest rows first. */
  lemma OneMoreRow<P(!new)>(rows: Rows<P>, scope: Scope, from: nat, unique: seq<Row<P>>, next: seq<Row<P>>)
    requires from < |rows| && OncePerQuestion(rows, scope, from + 1, unique)
    requires if rows[from].key.scope != scope then next == unique
             else if !Asks(unique, rows[from].value.reviewed) then next == unique + [rows[from].value]
             else if IsParaphrase(rows[from]) then next == unique
             else exists i ::
               0 <= i < |unique| && unique[i].reviewed == rows[from].value.reviewed
               && next == unique[i := rows[from].value]
    ensures OncePerQuestion(rows, scope, from, next)
  {
    hide Represents;
    var x := rows[from];
    forall i | 0 <= i < |next| ensures Represents(rows, scope, from, next[i]) {
      if x.key.scope == scope && next[i] == x.value {
        if !IsParaphrase(x) { OriginalRepresents(rows, scope, from); }
        else if !Asks(unique, x.value.reviewed) { NewQuestionRepresents(rows, scope, from, unique); }
        else { RepresentsStill(rows, scope, from + 1, next[i]); }
      } else {
        RepresentsStill(rows, scope, from + 1, next[i]);
      }
    }
    forall j | from <= j < |rows| && rows[j].key.scope == scope ensures Asks(next, rows[j].value.reviewed) {
      if j > from || Asks(unique, x.value.reviewed) {
        var i :| 0 <= i < |unique| && unique[i].reviewed == rows[j].value.reviewed;
        assert next[i].reviewed == rows[j].value.reviewed;
      } else {
        assert next[|unique|].reviewed == x.value.reviewed;
      }
    }
  }

  /** Among the rows from `from` on, question `p` was stored more recently than any row of question `q`. */
  ghost predicate MoreRecent<P(!new)>(rows: Rows<P>, scope: Scope, from: nat, p: string, q: string) {
    exists k :: from <= k < |rows| && InScope(rows[k], scope, p)
      && forall m :: k <= m < |rows| ==> !InScope(rows[m], scope, q)
  }

  ghost predicate NewestFirst<P(!new)>(rows: Rows<P>, scope: Scope, from: nat, unique: seq<Row<P>>) {
    forall i, j :: 0 <= i < j < |unique| ==> MoreRecent(rows, scope, from, unique[i].reviewed, unique[j].reviewed)
  }

  lemma RecentStill<P(!new)>(rows: Rows<P>, scope: Scope, from: nat, unique: seq<Row<P>>)
    requires 0 < from && NewestFirst(rows, scope, from, unique)
    ensures NewestFirst(rows, scope, from - 1, unique)
  {
    forall i, j | 0 <= i < j < |unique|
      ensures MoreRecent(rows, scope, from - 1, unique[i].reviewed, unique[j].reviewed)
    {
      assert MoreRecent(rows, scope, from, unique[i].reviewed, unique[j].reviewed);
    }
  }

  /** A question not seen so far is older than those that were. */
  lemma NewQuestionIsOldest<P(!new)>(rows: Rows<P>, scope: Scope, from: nat, unique: seq<Row<P>>)
    requires from < |rows| && rows[from].key.scope == scope && OncePerQuestion(rows, scope, from + 1, unique)
    requires NewestFirst(rows, scope, from + 1, unique) && !Asks(unique, rows[from].value.reviewed)
    ensures NewestFirst(rows, scope, from, unique + [rows[from].value])
  {
    var next := unique + [rows[from].value];
    RecentStill(rows, scope, from + 1, unique);
    forall i, j | 0 <= i < j < |next| ensures MoreRecent(rows, scope, from, next[i].reviewed, next[j].reviewed) {
      if j == |unique| {
        assert Represents(rows, scope, from + 1, unique[i]);
        var k :| from + 1 <= k < |rows| && RepresentedBy(rows, scope, from + 1, unique[i], k);
        assert InScope(rows[k], scope, unique[i].reviewed);
        assert forall m :: k <= m < |rows| ==> !InScope(rows[m], scope, next[j].reviewed);
      } else {
        assert MoreRecent(rows, scope, from, unique[i].reviewed, unique[j].reviewed);
      }
    }
  }

  /** The newest-first pass: one row for every reviewed question, in the order in which they were last stored. */
  method OfferedRows<P(!new)>(rows: Rows<P>, scope: Scope) returns (unique: seq<Row<P>>)
    ensures OncePerQuestion(rows, scope, 0, unique) && NewestFirst(rows, scope, 0, unique)
  {
    unique := [];
    var n: nat := |rows|;
    hide Represents;
    hide MoreRecent;
    while n > 0
      invariant n <= |rows| && OncePerQuestion(rows, scope, n, unique) && NewestFirst(rows, scope, n, unique)
    {
      n := n - 1;
      var x := rows[n];
      ghost var was := unique;
      RecentStill(rows, scope, n + 1, unique);
      if x.key.scope == scope {
        if !Asks(unique, x.value.reviewed) {
          NewQuestionIsOldest(rows, scope, n, unique);
          unique := unique + [x.value];
        } else if !IsParaphrase(x) {
          var i :| 0 <= i < |unique| && unique[i].reviewed == x.value.reviewed;
          unique := unique[i := x.value];
        }
      }
      OneMoreRow(rows, scope, n, was, unique);
    }
  }

  // ---- Ranking ----

  /** Behind everything that scores as much: the sort is stable. */
  function InsertByScore<P(!new)>(s: seq<Row<P>>, x: Row<P>, score: Row<P> -> nat): seq<Row<P>> {
    if s == [] || score(s[|s| - 1]) >= score(x) then s + [x]
    else InsertByScore(s[..|s| - 1], x, score) + [s[|s| - 1]]
  }

  function SortByScore<P(!new)>(s: seq<Row<P>>, score: Row<P> -> nat): seq<Row<P>> {
    if s == [] then [] else InsertByScore(SortByScore(s[..|s| - 1], score), s[|s| - 1], score)
  }

  /** Best scores first, and among equal scores in the given order. */
  ghost predicate Ranked<P(!new)>(s: seq<Row<P>>, score: Row<P> -> nat, before: (Row<P>, Row<P>) -> bool) {
    forall i, j :: 0 <= i < j < |s| ==>
      score(s[i]) > score(s[j]) || (score(s[i]) == score(s[j]) && before(s[i], s[j]))
  }

  ghost predicate SameRows<P(!new)>(s: seq<Row<P>>, t: seq<Row<P>>) {
    |s| == |t| && forall x :: x in s <==> x in t
  }

  lemma {:induction false} InsertedOnce<P(!new)>(s: seq<Row<P>>, x: Row<P>, score: Row<P> -> nat)
    ensures SameRows(InsertByScore(s, x, score), s + [x])
  {
    if s != [] && score(s[|s| - 1]) < score(x) {
      InsertedOnce(s[..|s| - 1], x, score);
      assert s == s[..|s| - 1] + [s[|s| - 1]];
    }
  }

  lemma {:induction false} InsertedInOrder<P(!new)>(s: seq<Row<P>>, x: Row<P>, score: Row<P> -> nat,
                                                    before: (Row<P>, Row<P>) -> bool)
    requires Ranked(s, score, before) && forall y :: y in s ==> before(y, x)
    ensures Ranked(InsertByScore(s, x, score), score, before)
  {
    if s != [] {
      var n := |s| - 1;
      assert s[n] in s;
      if score(s[n]) < score(x) {
        var front := InsertByScore(s[..n], x, score);
        InsertedInOrder(s[..n], x, score, before);
        InsertedOnce(s[..n], x, score);
        forall i | 0 <= i < |front|
          ensures score(front[i]) > score(s[n]) || (score(front[i]) == score(s[n]) && before(front[i], s[n]))
        {
          assert front[i] in front;
          assert front[i] == x || front[i] in s[..n];
        }
        assert InsertByScore(s, x, score) == front + [s[n]];
        hide InsertByScore;
      }
    }
  }

  lemma {:induction false} InsertedDistinct<P(!new)>(s: seq<Row<P>>, x: Row<P>, score: Row<P> -> nat)
    requires DistinctQuestions(s) && forall y :: y in s ==> y.reviewed != x.reviewed
    ensures DistinctQuestions(InsertByScore(s, x, score))
  {
    if s != [] {
      var n := |s| - 1;
      assert s[n] in s;
      if score(s[n]) < score(x) {
        var front := InsertByScore(s[..n], x, score);
        InsertedDistinct(s[..n], x, score);
        InsertedOnce(s[..n], x, score);
        forall i | 0 <= i < |front| ensures front[i].reviewed != s[n].reviewed {
          assert front[i] in front;
          assert front[i] == x || front[i] in s[..n];
        }
      }
    }
  }

  /** The stable sort ranks rows of distinct questions that come in the given order. */
  lemma {:induction false} SortRanks<P(!new)>(s: seq<Row<P>>, score: Row<P> -> nat, before: (Row<P>, Row<P>) -> bool)
    requires DistinctQuestions(s) && forall i, j :: 0 <= i < j < |s| ==> before(s[i], s[j])
    ensures var r := SortByScore(s, score);
            SameRows(r, s) && DistinctQuestions(r) && Ranked(r, score, before)
  {
    if s != [] {
      var n := |s| - 1;
      var sorted := SortByScore(s[..n], score);
      SortRanks(s[..n], score, before);
      assert s == s[..n] + [s[n]];
      forall y | y in sorted ensures y.reviewed != s[n].reviewed && before(y, s[n]) {
        assert y in s[..n];
      }
      InsertedInOrder(sorted, s[n], score, before);
      InsertedDistinct(sorted, s[n], score);
      InsertedOnce(sorted, s[n], score);
      hide InsertByScore;
    }
  }

  lemma OnceEachReordered<P(!new)>(rows: Rows<P>, scope: Scope, unique: seq<Row<P>>, r: seq<Row<P>>)
    requires OncePerQuestion(rows, scope, 0, unique) && SameRows(r, unique) && DistinctQuestions(r)
    ensures OncePerQuestion(rows, scope, 0, r)
  {
    hide Represents;
    forall i | 0 <= i < |r| ensures Represents(rows, scope, 0, r[i]) {
      assert r[i] in unique;
      var k :| 0 <= k < |unique| && unique[k] == r[i];
    }
    forall j | 0 <= j < |rows| && rows[j].key.scope == scope ensures Asks(r, rows[j].value.reviewed) {
      var i :| 0 <= i < |unique| && unique[i].reviewed == rows[j].value.reviewed;
      assert unique[i] in r;
    }
  }

  /** Of two rows the one whose question was stored more recently. */
  ghost function ByRecency<P(!new)>(rows: Rows<P>, scope: Scope): (Row<P>, Row<P>) -> bool {
    (x: Row<P>, y: Row<P>) => MoreRecent(rows, scope, 0, x.reviewed, y.reviewed)
  }

  function FirstOf<T>(s: seq<T>, limit: nat): seq<T> {
    if |s| <= limit then s else s[..limit]
  }

  // ---- One plan per incarnation ----

  function Replanned<L(!new)>(plans: Plans<L>, key: Scope, plan: L): Plans<L> {
    PutLast(Keep(plans, k => !SameIncarnation(k, key) || k == key), key, plan)
  }

  lemma KeptPlans<P(!new), L(!new)>(plans: Plans<L>, keep: Scope -> bool, codec: Codec<P, L>)
    requires DistinctKeys(plans) && AllValid(codec, plans)
    ensures DistinctKeys(Keep(plans, keep)) && |Keep(plans, keep)| <= |plans| && AllValid(codec, Keep(plans, keep))
    ensures OnePlanEach(plans) ==> OnePlanEach(Keep(plans, keep))
  {
    KeepDistinct(plans, keep);
    OneEachByMembers(plans, Keep(plans, keep));
  }

  lemma OneEachByMembers<L(!new)>(plans: Plans<L>, fewer: Plans<L>)
    requires DistinctKeys(fewer) && forall x :: x in fewer ==> x in plans
    ensures OnePlanEach(plans) ==> OnePlanEach(fewer)
  {
    if OnePlanEach(plans) {
      forall i, j | 0 <= i < j < |fewer| ensures !SameIncarnation(fewer[i].key, fewer[j].key) {
        assert fewer[i] in plans && fewer[j] in plans;
        var a :| 0 <= a < |plans| && plans[a] == fewer[i];
        var b :| 0 <= b < |plans| && plans[b] == fewer[j];
        assert a != b;
      }
    }
  }

  lemma ReplannedMembers<L(!new)>(plans: Plans<L>, key: Scope, plan: L)
    requires DistinctKeys(plans)
    ensures var r := Replanned(plans, key, plan);
            DistinctKeys(r) && forall x :: x in r <==>
              x == Item(key, plan) || (x in plans && !SameIncarnation(x.key, key))
  {
    var kept := Keep(plans, k => !SameIncarnation(k, key) || k == key);
    KeepDistinct(plans, k => !SameIncarnation(k, key) || k == key);
    PutLastFacts(kept, key, plan);
  }

  /** The new plan is the only one of its incarnation; the others are as before. */
  lemma ReplannedFacts<P(!new), L(!new)>(plans: Plans<L>, key: Scope, plan: L, codec: Codec<P, L>)
    requires DistinctKeys(plans) && AllValid(codec, plans) && codec.validPlan(plan)
    ensures var r := Replanned(plans, key, plan);
            DistinctKeys(r) && AllValid(codec, r) && forall x ::
              x in r && SameIncarnation(x.key, key) ==> x == Item(key, plan)
    ensures OnePlanEach(plans) ==> OnePlanEach(Replanned(plans, key, plan))
  {
    var r := Replanned(plans, key, plan);
    ReplannedMembers(plans, key, plan);
    hide Replanned;
    if OnePlanEach(plans) {
      forall i, j | 0 <= i < j < |r| ensures !SameIncarnation(r[i].key, r[j].key) {
        assert r[i] in r && r[j] in r;
        if r[i] in plans && r[j] in plans {
          var a :| 0 <= a < |plans| && plans[a] == r[i];
          var b :| 0 <= b < |plans| && plans[b] == r[j];
          assert a != b;
        }
      }
    }
  }

  lemma HeldPlan<L(!new)>(plans: Plans<L>, key: Scope)
    requires DistinctKeys(plans)
    ensures Get(plans, key).Some? ==> Item(key, Get(plans, key).value) in plans
    ensures forall x :: x in plans && x.key == key ==> Get(plans, key) == Some(x.value)
  {
    if Get(plans, key).Some? { GetIsMember(plans, key, Get(plans, key).value); }
    forall x | x in plans && x.key == key ensures Get(plans, key) == Some(x.value) { GetIsMember(plans, key, x.value); }
  }

  predicate IsPlanFor<P(!new), L(!new)>(x: Item<Scope, L>, key: Scope, factsHash: string, codec: Codec<P, L>) {
    SameIncarnation(x.key, key) && codec.factsHash(x.value) == factsHash
  }

  /** The newest plan of an incarnation for given facts. */
  ghost predicate NewestPlanFor<P(!new), L(!new)>(plans: Plans<L>, key: Scope, factsHash: string, codec: Codec<P, L>,
                                                  plan: L) {
    exists k :: && 0 <= k < |plans| && IsPlanFor(plans[k], key, factsHash, codec) && plans[k].value == plan
                && forall j :: k < j < |plans| ==> !IsPlanFor(plans[j], key, factsHash, codec)
  }

  ghost predicate NoPlanFor<P(!new), L(!new)>(plans: Plans<L>, key: Scope, factsHash: string, codec: Codec<P, L>) {
    forall j :: 0 <= j < |plans| ==> !IsPlanFor(plans[j], key, factsHash, codec)
  }

  method NewestFor<P(!new), L(!new)>(plans: Plans<L>, key: Scope, factsHash: string, codec: Codec<P, L>)
    returns (row: Option<L>)
    ensures row.Some? ==> NewestPlanFor(plans, key, factsHash, codec, row.value)
    ensures row.None? ==> NoPlanFor(plans, key, factsHash, codec)
  {
    var n: nat := |plans|;
    while n > 0
      invariant n <= |plans| && forall j :: n <= j < |plans| ==> !IsPlanFor(plans[j], key, factsHash, codec)
    {
      n := n - 1;
      if IsPlanFor(plans[n], key, factsHash, codec) { return Some(plans[n].value); }
    }
    return None;
  }

  // ---- What each operation makes of the bank ----

  datatype Held<P, L> = Held(rows: Rows<P>, attempted: seq<Item<Scope, bool>>, plans: Plans<L>)

  function OtherIncarnation(scope: Scope): Scope -> bool {
    (k: Scope) => !SameIncarnation(k, scope)
  }

  function OtherBook(book: string): Scope -> bool {
    (k: Scope) => k.book != book
  }

  function PlansOfOthers<L(!new)>(plans: Plans<L>, scope: Scope): Plans<L> {
    Keep(plans, OtherIncarnation(scope))
  }

  function ScopesOfOthers<V(!new)>(d: seq<Item<Scope, V>>, book: string): seq<Item<Scope, V>> {
    Keep(d, OtherBook(book))
  }

  function RowsOfOthers<P(!new)>(rows: Rows<P>, book: string): Rows<P> {
    Keep(rows, (k: Key) => k.scope.book != book)
  }

  function Stored<P(!new), L(!new)>(h: Held<P, L>, key: Key, payload: P, reviewed: string, limit: nat): Held<P, L> {
    var put := PutLast(h.rows, key, NewRow(h.rows, key, payload, reviewed));
    h.(rows := Evicted(put, Excess(|put|, limit)))
  }

  function Attempted<P(!new), L(!new)>(h: Held<P, L>, scope: Scope, keepPlan: bool, limit: nat): Held<P, L> {
    h.(attempted := Newest(PutLast(h.attempted, scope, true), limit),
       plans := if keepPlan then h.plans else PlansOfOthers(h.plans, scope))
  }

  function Forgotten<P(!new), L(!new)>(h: Held<P, L>, book: string): Held<P, L> {
    Held(RowsOfOthers(h.rows, book), ScopesOfOthers(h.attempted, book), ScopesOfOthers(h.plans, book))
  }

  function Planned<P(!new), L(!new)>(h: Held<P, L>, scope: Scope, plan: L, limit: nat): Held<P, L> {
    h.(plans := Newest(Replanned(h.plans, scope, plan), PlanLimit(limit)))
  }

  function Reused<P(!new), L(!new)>(h: Held<P, L>, key: Key): Held<P, L> {
    h.(rows := Touch(h.rows, key))
  }

  function Resumed<P(!new), L(!new)>(h: Held<P, L>, scope: Scope): Held<P, L> {
    h.(plans := Touch(h.plans, scope))
  }

  /** Distinct keys, sizes within the limits, valid answers and plans. */
  ghost predicate HeldOk<P(!new), L(!new)>(limit: nat, codec: Codec<P, L>, h: Held<P, L>) {
    && DistinctKeys(h.rows) && |h.rows| <= limit && AllAnswered(codec, h.rows)
    && DistinctKeys(h.attempted) && |h.attempted| <= limit
    && DistinctKeys(h.plans) && |h.plans| <= PlanLimit(limit) && AllValid(codec, h.plans)
  }

  lemma StoredOk<P(!new), L(!new)>(limit: nat, codec: Codec<P, L>, h: Held<P, L>, key: Key, payload: P,
                                   reviewed: string)
    requires HeldOk(limit, codec, h) && codec.validAnswer(payload)
    ensures HeldOk(limit, codec, Stored(h, key, payload, reviewed, limit))
    ensures Spares(PutLast(h.rows, key, NewRow(h.rows, key, payload, reviewed)),
                   Stored(h, key, payload, reviewed, limit).rows)
  {
    var row := NewRow(h.rows, key, payload, reviewed);
    var put := PutLast(h.rows, key, row);
    PutLastFacts(h.rows, key, row);
    EvictionSparesOriginals(put, Excess(|put|, limit));
    SparedAreHeld(put, Evicted(put, Excess(|put|, limit)));
    hide DistinctKeys;
    hide PutLast;
    hide Spares;
  }

  // ---- What each operation leaves ----

  ghost function RowOfOtherBook(book: string): Key -> bool { (k: Key) => k.scope.book != book }
  ghost function ScopeOfOtherBook(book: string): Scope -> bool { (k: Scope) => k.book != book }
  ghost function ScopeElsewhere(scope: Scope): Scope -> bool {
    (k: Scope) => k.book != scope.book || k.incarnation != scope.incarnation
  }
  ghost function OtherScope(scope: Scope): Scope -> bool { (k: Scope) => k != scope }

  /** Invalidating a book leaves exactly what is of other books, in its order. */
  lemma ForgottenExactly<P(!new), L(!new)>(h: Held<P, L>, book: string)
    ensures var t := Forgotten(h, book);
            && KeptInOrder(h.rows, t.rows, RowOfOtherBook(book))
            && KeptInOrder(h.attempted, t.attempted, ScopeOfOtherBook(book))
            && KeptInOrder(h.plans, t.plans, ScopeOfOtherBook(book))
  {
    var rows := KeepKeepsOrder(h.rows, (k: Key) => k.scope.book != book);
    KeptAlike(h.rows, RowsOfOthers(h.rows, book), (k: Key) => k.scope.book != book, RowOfOtherBook(book), rows);
    var attempted := KeepKeepsOrder(h.attempted, OtherBook(book));
    KeptAlike(h.attempted, Keep(h.attempted, OtherBook(book)), OtherBook(book), ScopeOfOtherBook(book), attempted);
    var plans := KeepKeepsOrder(h.plans, OtherBook(book));
    KeptAlike(h.plans, Keep(h.plans, OtherBook(book)), OtherBook(book), ScopeOfOtherBook(book), plans);
    hide *;
  }

  /** The other entries in their order with this one behind them, cut to the newest. */
  ghost predicate BecomesNewest<V(!new)>(was: seq<Item<Scope, V>>, now: seq<Item<Scope, V>>, keep: Scope -> bool,
                                         x: Item<Scope, V>, limit: nat) {
    exists others :: KeptInOrder(was, others, keep) && LastOf(others + [x], now, limit)
  }

  /** A finished attempt becomes the newest, and the plans of its incarnation go unless one is kept. */
  lemma AttemptedExactly<P(!new), L(!new)>(h: Held<P, L>, scope: Scope, keepPlan: bool, limit: nat)
    requires DistinctKeys(h.attempted)
    ensures var t := Attempted(h, scope, keepPlan, limit);
            && t.rows == h.rows && BecomesNewest(h.attempted, t.attempted, OtherScope(scope), Item(scope, true), limit)
            && if keepPlan then t.plans == h.plans else KeptInOrder(h.plans, t.plans, ScopeElsewhere(scope))
  {
    var at := WithoutKeepsOrder(h.attempted, scope);
    KeptAlike(h.attempted, Without(h.attempted, scope), (k: Scope) => k != scope, OtherScope(scope), at);
    NewestAreLast(PutLast(h.attempted, scope, true), limit);
    var plans := KeepKeepsOrder(h.plans, OtherIncarnation(scope));
    KeptAlike(h.plans, Keep(h.plans, OtherIncarnation(scope)), OtherIncarnation(scope), ScopeElsewhere(scope), plans);
    hide KeptInOrder;
    hide LastOf;
    hide Keep;
    hide Without;
    hide Newest;
  }

  /** A new plan becomes the newest, and the only one of its incarnation. */
  lemma PlannedExactly<P(!new), L(!new)>(h: Held<P, L>, scope: Scope, plan: L, limit: nat)
    requires DistinctKeys(h.plans)
    ensures var t := Planned(h, scope, plan, limit);
            && t.rows == h.rows && t.attempted == h.attempted
            && BecomesNewest(h.plans, t.plans, ScopeElsewhere(scope), Item(scope, plan),
                             if limit < 16 then limit else 16)
  {
    var keep: Scope -> bool := k => !SameIncarnation(k, scope) || k == scope;
    var kept := Keep(h.plans, keep);
    KeepDistinct(h.plans, keep);
    var at := KeepKeepsOrder(h.plans, keep);
    var next := WithoutKeepsOrder(kept, scope);
    KeptTwice(h.plans, kept, Without(kept, scope), keep, (k: Scope) => k != scope, ScopeElsewhere(scope), at, next);
    assert Replanned(h.plans, scope, plan) == PutLast(kept, scope, plan);
    NewestAreLast(PutLast(kept, scope, plan), PlanLimit(limit));
    hide KeptInOrder;
    hide LastOf;
    hide Keep;
    hide Without;
    hide Newest;
  }

  /** The new row is given up at once: it is a paraphrase in a bank full of originals, or no row is kept at all. */
  ghost predicate GivenUp<P(!new)>(rows: Rows<P>, key: Key, asked: string, limit: nat) {
    |rows| == limit && (forall x :: x in rows ==> x.key != key)
    && (limit == 0 || (asked != key.question && NoParaphrase(rows)))
  }

  /**
   After an answer is stored, it is what its key looks up, under the question it was reviewed for, unless it was
   given up at once; it stays a suggestion only as the original that already was one.
   */
  lemma StoredIsFound<P(!new), L(!new)>(h: Held<P, L>, key: Key, payload: P, reviewed: string, limit: nat)
    requires DistinctKeys(h.rows) && |h.rows| <= limit
    ensures var asked := if reviewed == "" then key.question else reviewed;
            var found := Get(Stored(h, key, payload, reviewed, limit).rows, key);
            if GivenUp(h.rows, key, asked, limit) then found.None?
            else
              && found.Some? && found.value.payload == payload && found.value.reviewed == asked
              && (found.value.suggested <==>
                    asked == key.question
                    && exists x :: x in h.rows && x.key == key && x.value.suggested && x.value.reviewed == key.question)
  {
    var asked := if reviewed == "" then key.question else reviewed;
    var row := NewRow(h.rows, key, payload, reviewed);
    var put := PutLast(h.rows, key, row);
    PutLastFacts(h.rows, key, row);
    PriorRow(h.rows, key);
    assert put[|put| - 1] == Item(key, row);
    if |put| > limit {
      var v := Victim(put);
      assert Evicted(put, 1) == RemoveAt(put, v) by { assert Evicted(RemoveAt(put, v), 0) == RemoveAt(put, v); }
      RemovedMembers(put, v);
      NewestIsVictim(h.rows, key, row, limit);
      GetIsMember(RemoveAt(put, v), key, row);
      LookupFails(RemoveAt(put, v), key);
    } else {
      GetIsMember(put, key, row);
    }
  }

  lemma PriorRow<P(!new)>(rows: Rows<P>, key: Key)
    requires DistinctKeys(rows)
    ensures (forall x :: x in rows ==> x.key != key) <==> !Has(rows, key)
    ensures forall x :: x in rows && x.key == key ==> Get(rows, key) == Some(x.value)
    ensures Has(rows, key) ==> exists x :: x in rows && x.key == key && Get(rows, key) == Some(x.value)
  {
    forall x | x in rows && x.key == key ensures Get(rows, key) == Some(x.value) { GetIsMember(rows, key, x.value); }
    var i := IndexOf(rows, key);
    if i >= 0 { assert rows[i] in rows; }
  }

  lemma LookupFails<P(!new)>(rows: Rows<P>, key: Key)
    ensures Get(rows, key).None? <==> forall x :: x in rows ==> x.key != key
  {
    var i := IndexOf(rows, key);
    if i >= 0 { assert rows[i] in rows; }
  }

  /** In a full bank the new row itself is the victim exactly when it is the only paraphrase, or the only row. */
  lemma NewestIsVictim<P(!new)>(rows: Rows<P>, key: Key, row: Row<P>, limit: nat)
    requires DistinctKeys(rows) && |rows| == limit && !Has(rows, key)
    ensures Victim(PutLast(rows, key, row)) == limit
            <==> limit == 0 || (row.reviewed != key.question && NoParaphrase(rows))
  {
    var put := PutLast(rows, key, row);
    assert put == rows + [Item(key, row)];
    var v := Victim(put);
    assert put[limit] == Item(key, row) && (IsParaphrase(put[limit]) <==> row.reviewed != key.question);
    forall i | 0 <= i < limit ensures put[i] == rows[i] && rows[i] in rows {}
    if v == limit && limit > 0 {
      forall x | x in rows ensures !IsParaphrase(x) {
        var i :| 0 <= i < limit && rows[i] == x;
        assert !IsParaphrase(put[i]);
      }
    }
  }

  lemma AttemptedOk<P(!new), L(!new)>(limit: nat, codec: Codec<P, L>, h: Held<P, L>, scope: Scope, keepPlan: bool)
    requires HeldOk(limit, codec, h)
    ensures HeldOk(limit, codec, Attempted(h, scope, keepPlan, limit))
    ensures OnePlanEach(h.plans) ==> OnePlanEach(Attempted(h, scope, keepPlan, limit).plans)
  {
    PutLastFacts(h.attempted, scope, true);
    NewestFacts(PutLast(h.attempted, scope, true), limit);
    KeptPlans(h.plans, OtherIncarnation(scope), codec);
    hide DistinctKeys;
    hide PutLast;
    hide Newest;
    hide OnePlanEach;
  }

  lemma PlannedOk<P(!new), L(!new)>(limit: nat, codec: Codec<P, L>, h: Held<P, L>, scope: Scope, plan: L)
    requires HeldOk(limit, codec, h) && codec.validPlan(plan)
    ensures var t := Planned(h, scope, plan, limit);
            HeldOk(limit, codec, t) && (OnePlanEach(h.plans) ==> OnePlanEach(t.plans))
  {
    var r := Replanned(h.plans, scope, plan);
    ReplannedFacts(h.plans, scope, plan, codec);
    NewestFacts(r, PlanLimit(limit));
    OneEachByMembers(r, Newest(r, PlanLimit(limit)));
    hide DistinctKeys;
    hide Newest;
    hide Replanned;
    hide OnePlanEach;
  }

  lemma TouchedOk<P(!new), L(!new)>(limit: nat, codec: Codec<P, L>, h: Held<P, L>, key: Key, scope: Scope)
    requires HeldOk(limit, codec, h)
    ensures HeldOk(limit, codec, Reused(h, key))
    ensures var t := Resumed(h, scope);
            HeldOk(limit, codec, t) && (OnePlanEach(h.plans) ==> OnePlanEach(t.plans))
  {
    TouchFacts(h.rows, key);
    TouchFacts(h.plans, scope);
    OneEachByMembers(h.plans, Touch(h.plans, scope));
    hide DistinctKeys;
    hide Touch;
    hide OnePlanEach;
  }

  lemma RowsKept<P(!new)>(rows: Rows<P>, book: string)
    requires DistinctKeys(rows)
    ensures DistinctKeys(RowsOfOthers(rows, book)) && |RowsOfOthers(rows, book)| <= |rows|
    ensures forall x :: x in RowsOfOthers(rows, book) <==> x in rows && x.key.scope.book != book
  {
    KeepDistinct(rows, (k: Key) => k.scope.book != book);
  }

  lemma ForgottenOk<P(!new), L(!new)>(limit: nat, codec: Codec<P, L>, h: Held<P, L>, book: string)
    requires HeldOk(limit, codec, h)
    ensures HeldOk(limit, codec, Forgotten(h, book))
    ensures OnePlanEach(h.plans) ==> OnePlanEach(Forgotten(h, book).plans)
  {
    RowsKept(h.rows, book);
    KeepDistinct(h.attempted, OtherBook(book));
    KeptPlans(h.plans, OtherBook(book), codec);
    hide DistinctKeys;
    hide OnePlanEach;
  }

  class Bank<P(!new), L(!new)> {
    const limit: nat
    const codec: Codec<P, L>
    var rows: Rows<P>
    var attempted: seq<Item<Scope, bool>>
    var plans: Plans<L>
    var file: Option<Checkpoint<P, L>>

    function Holding(): Held<P, L>
      reads this
    {
      Held(rows, attempted, plans)
    }

    ghost predicate Valid()
      reads this
    {
      Roomy(codec, limit) && HeldOk(limit, codec, Holding())
    }

    function Whole(): Content<P, L>
      reads this
    {
      Content(rows, Prepared(attempted), plans)
    }

    /** The checkpoint on file is the bank, trimmed no more than it has to be. */
    ghost predicate Saved()
      reads this
    {
      file.Some? && file.value.version == ANSWER_VERSION && file.value.digest == codec.hash(file.value.content)
      && IsTrimmed(codec, Whole(), file.value.content)
    }

    constructor (limit: nat, codec: Codec<P, L>, file: Option<Checkpoint<P, L>>)
      requires Roomy(codec, limit)
      ensures Valid() && this.limit == limit && this.codec == codec && this.file == file
      ensures !Readable(codec, limit, file) ==> rows == [] && attempted == [] && plans == []
      ensures Readable(codec, limit, file) && WithoutRepeats(file.value.content) ==> Whole() == file.value.content
    {
      var loadedRows, loadedAttempted, loadedPlans := Load(limit, codec, file);
      this.limit, this.codec, this.file := limit, codec, file;
      rows, attempted, plans := loadedRows, loadedAttempted, loadedPlans;
    }

    method Save()
      requires Valid()
      modifies this`file
      ensures Valid() && Saved()
    {
      var content, n := TrimToFit(codec, Whole());
      file := Some(Checkpoint(ANSWER_VERSION, content, codec.hash(content)));
    }

    method Lookup(key: Key) returns (payload: Option<P>)
      requires Valid()
      modifies this`rows
      ensures Valid() && Holding() == Reused(old(Holding()), key)
      ensures payload == match Get(old(rows), key) { case None => None case Some(row) => Some(row.payload) }
    {
      TouchedOk(limit, codec, Holding(), key, key.scope);
      hide HeldOk;
      var row := Get(rows, key);
      if row.None? { return None; }
      rows := Touch(rows, key);
      return Some(row.value.payload);
    }

    /** Stores a reviewed answer under a question; `reviewed` is the question it was reviewed for, if another. */
    method Set(key: Key, payload: P, reviewed: string)
      requires Valid()
      modifies this
      ensures Valid()
      ensures if codec.validAnswer(payload)
              then Holding() == Stored(old(Holding()), key, payload, reviewed, limit)
                   && Spares(PutLast(old(rows), key, NewRow(old(rows), key, payload, reviewed)), rows) && Saved()
              else Holding() == old(Holding()) && file == old(file)
    {
      if !codec.validAnswer(payload) { return; }
      StoredOk(limit, codec, Holding(), key, payload, reviewed);
      hide HeldOk;
      hide Spares;
      hide PutLast;
      rows := Evict(PutLast(rows, key, NewRow(rows, key, payload, reviewed)), limit);
      Save();
    }

    /**
     The best matching answers of a scope: each reviewed question once, as the original when it is held, best
     scores first and the most recent question first among equals.
     */
    method Candidates(scope: Scope, score: Row<P> -> nat, count: nat) returns (r: seq<Row<P>>)
      requires Valid()
      ensures exists ranked ::
        && OncePerQuestion(rows, scope, 0, ranked) && Ranked(ranked, score, ByRecency(rows, scope))
        && r == FirstOf(ranked, count)
    {
      var offered := OfferedRows(rows, scope);
      SortRanks(offered, score, ByRecency(rows, scope));
      var ranked := SortByScore(offered, score);
      OnceEachReordered(rows, scope, offered, ranked);
      r := FirstOf(ranked, count);
    }

    method MarkPrepared(scope: Scope, keepPlan: bool)
      requires Valid()
      modifies this
      ensures Valid() && Saved() && Holding() == Attempted(old(Holding()), scope, keepPlan, limit)
      ensures OnePlanEach(old(plans)) ==> OnePlanEach(plans)
    {
      AttemptedOk(limit, codec, Holding(), scope, keepPlan);
      hide HeldOk;
      hide OnePlanEach;
      hide PutLast;
      hide Newest;
      hide IsTrimmed;
      hide Roomy;
      hide PlansOfOthers;
      var tried := Trim(PutLast(attempted, scope, true), limit);
      attempted := tried;
      plans := if keepPlan then plans else PlansOfOthers(plans, scope);
      Save();
    }

    /** An invalid plan is refused; a valid one replaces every plan of its incarnation. */
    method SetPlan(key: Scope, plan: L) returns (ok: bool)
      requires Valid()
      modifies this
      ensures Valid() && (ok <==> codec.validPlan(plan))
      ensures if ok then Saved() && Holding() == Planned(old(Holding()), key, plan, limit)
              else Holding() == old(Holding()) && file == old(file)
      ensures OnePlanEach(old(plans)) ==> OnePlanEach(plans)
    {
      if !codec.validPlan(plan) { return false; }
      PlannedOk(limit, codec, Holding(), key, plan);
      hide HeldOk;
      hide OnePlanEach;
      hide Replanned;
      plans := Trim(Replanned(plans, key, plan), PlanLimit(limit));
      Save();
      return true;
    }

    /** The key's own plan, if it is for these facts; without one, the newest of the incarnation that is. */
    method PlanFor(key: Scope, factsHash: string) returns (plan: Option<L>)
      requires Valid()
      modifies this`plans
      ensures Valid() && Holding() == if plan.Some? then Resumed(old(Holding()), key) else old(Holding())
      ensures match Get(old(plans), key)
              case Some(own) => plan == if codec.factsHash(own) == factsHash then Some(own) else None
              case None =>
                if plan.Some? then NewestPlanFor(old(plans), key, factsHash, codec, plan.value)
                else NoPlanFor(old(plans), key, factsHash, codec)
      ensures plan.Some? ==> codec.validPlan(plan.value)
    {
      var row := Get(plans, key);
      HeldPlan(plans, key);
      if row.None? { row := NewestFor(plans, key, factsHash, codec); }
      if row.None? || codec.factsHash(row.value) != factsHash || !codec.validPlan(row.value) { return None; }
      TouchedOk(limit, codec, Holding(), Key(key, ""), key);
      TouchFacts(plans, key);
      hide HeldOk;
      hide NewestPlanFor;
      hide NoPlanFor;
      hide Get;
      hide Touch;
      hide Has;
      hide Roomy;
      if Has(plans, key) { plans := Touch(plans, key); }
      return Some(row.value);
    }

    /** Forgets everything of one book and nothing else. */
    method InvalidateBook(book: string)
      requires Valid()
      modifies this
      ensures Valid() && Saved() && Holding() == Forgotten(old(Holding()), book)
    {
      ForgottenOk(limit, codec, Holding(), book);
      hide HeldOk;
      hide RowsOfOthers;
      hide ScopesOfOthers;
      rows := RowsOfOthers(rows, book);
      attempted := ScopesOfOthers(attempted, book);
      plans := ScopesOfOthers(plans, book);
      Save();
    }
  }

  lemma PreparedDistinct(attempted: seq<Item<Scope, bool>>)
    requires DistinctKeys(attempted)
    ensures DistinctScopes(Prepared(attempted)) && |Prepared(attempted)| == |attempted|
  {
  }

  /** A restarted process reads back exactly what was saved, for well-formed questions: nothing is rejected. */
  method Restart<P(!new), L(!new)>(bank: Bank<P, L>) returns (again: Bank<P, L>)
    requires bank.Valid() && bank.Saved() && AllLoadable(bank.codec, bank.rows)
    ensures fresh(again) && again.Valid() && again.Whole() == bank.file.value.content
    ensures again.Whole().prepared == bank.Whole().prepared && Spares(bank.rows, again.rows)
    ensures again.plans != [] ==> again.rows == bank.rows
  {
    var t := bank.file.value.content;
    PreparedDistinct(bank.attempted);
    TrimmedHolds(bank.codec, bank.Whole(), t);
    CheckpointIsAccepted(bank.codec, bank.limit, bank.Whole(), t);
    hide IsTrimmed;
    hide Spares;
    hide Fits;
    again := new Bank(bank.limit, bank.codec, bank.file);
  }
}
