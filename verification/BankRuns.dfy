/**
 Whole runs of the answer bank. `AnswerBank.Bank` is proved to perform these operations; what holds of every
 run from an empty bank is proved here.
 */
module BankRuns {
  import opened Wrappers
  import opened OrderedDict
  import opened AnswerBank

  datatype Op<P, L> =
    | Store(key: Key, payload: P, reviewed: string)
    | Reuse(key: Key)
    | Plan(scope: Scope, plan: L)
    | Resume(scope: Scope)
    | Attempt(scope: Scope, keepPlan: bool)
    | Forget(book: string)

  /** What `Set`, `Lookup`, `SetPlan`, `PlanFor`, `MarkPrepared` and `InvalidateBook` make of the bank. */
  function Perform<P(!new), L(!new)>(limit: nat, codec: Codec<P, L>, h: Held<P, L>, op: Op<P, L>): Held<P, L> {
    match op
    case Store(key, payload, reviewed) => if codec.validAnswer(payload) then Stored(h, key, payload, reviewed, limit)
      else h
    case Reuse(key) => Reused(h, key)
    case Plan(scope, plan) => if codec.validPlan(plan) then Planned(h, scope, plan, limit) else h
    case Resume(scope) => Resumed(h, scope)
    case Attempt(scope, keepPlan) => Attempted(h, scope, keepPlan, limit)
    case Forget(book) => Forgotten(h, book)
  }

  function Run<P(!new), L(!new)>(limit: nat, codec: Codec<P, L>, h: Held<P, L>, ops: seq<Op<P, L>>): Held<P, L>
    decreases |ops|
  {
    if ops == [] then h else Run(limit, codec, Perform(limit, codec, h, ops[0]), ops[1..])
  }

  predicate WellFormedQuestion(q: string) {
    2 <= |q| <= 500
  }

  /** Answers are stored under questions of the length that the routes accept. */
  predicate WellFormedOp<P(!new), L(!new)>(op: Op<P, L>) {
    op.Store? ==> WellFormedKey(op.key) && (op.reviewed == "" || WellFormedQuestion(op.reviewed))
  }

  ghost predicate WellFormedRun<P(!new), L(!new)>(ops: seq<Op<P, L>>) {
    forall i :: 0 <= i < |ops| ==> WellFormedOp(ops[i])
  }

  /** Within the limits, loadable rows, and one plan for each incarnation. */
  ghost predicate Inv<P(!new), L(!new)>(limit: nat, codec: Codec<P, L>, h: Held<P, L>) {
    HeldOk(limit, codec, h) && AllLoadable(codec, h.rows) && OnePlanEach(h.plans)
  }

  lemma StoredLoads<P(!new), L(!new)>(limit: nat, codec: Codec<P, L>, h: Held<P, L>, key: Key, payload: P,
                                      reviewed: string)
    requires Inv(limit, codec, h) && codec.validAnswer(payload)
    requires WellFormedKey(key) && (reviewed == "" || WellFormedQuestion(reviewed))
    ensures AllLoadable(codec, Stored(h, key, payload, reviewed, limit).rows)
  {
    var row := NewRow(h.rows, key, payload, reviewed);
    StoredOk(limit, codec, h, key, payload, reviewed);
    PutLastFacts(h.rows, key, row);
    SparedAreHeld(PutLast(h.rows, key, row), Stored(h, key, payload, reviewed, limit).rows);
    assert LoadableRow(codec, Item(key, row));
    hide LoadableRow;
    hide DistinctKeys;
    hide Spares;
    hide Stored;
  }

  lemma FewerLoad<P(!new), L(!new)>(codec: Codec<P, L>, rows: Rows<P>, key: Key, book: string)
    requires AllLoadable(codec, rows) && DistinctKeys(rows)
    ensures AllLoadable(codec, Touch(rows, key)) && AllLoadable(codec, RowsOfOthers(rows, book))
  {
    TouchFacts(rows, key);
    RowsKept(rows, book);
    hide LoadableRow;
    hide DistinctKeys;
  }

  lemma OpKeepsInv<P(!new), L(!new)>(limit: nat, codec: Codec<P, L>, h: Held<P, L>, op: Op<P, L>)
    requires Inv(limit, codec, h) && WellFormedOp(op)
    ensures Inv(limit, codec, Perform(limit, codec, h, op))
  {
    hide OnePlanEach;
    hide AllLoadable;
    hide DistinctKeys;
    match op
    case Store(key, payload, reviewed) =>
      if codec.validAnswer(payload) {
        StoredOk(limit, codec, h, key, payload, reviewed);
        StoredLoads(limit, codec, h, key, payload, reviewed);
      }
    case Reuse(key) => TouchedOk(limit, codec, h, key, key.scope); FewerLoad(codec, h.rows, key, "");
    case Plan(scope, plan) => if codec.validPlan(plan) { PlannedOk(limit, codec, h, scope, plan); }
    case Resume(scope) => TouchedOk(limit, codec, h, Key(scope, ""), scope);
    case Attempt(scope, keepPlan) => AttemptedOk(limit, codec, h, scope, keepPlan);
    case Forget(book) => ForgottenOk(limit, codec, h, book);
      FewerLoad(codec, h.rows, Key(Scope(book, "", ""), ""), book);
  }

  lemma {:induction false} RunKeepsInv<P(!new), L(!new)>(limit: nat, codec: Codec<P, L>, h: Held<P, L>,
                                                         ops: seq<Op<P, L>>)
    requires Inv(limit, codec, h) && WellFormedRun(ops)
    ensures Inv(limit, codec, Run(limit, codec, h, ops))
    decreases |ops|
  {
    hide Inv;
    hide Perform;
    if ops != [] {
      OpKeepsInv(limit, codec, h, ops[0]);
      RunKeepsInv(limit, codec, Perform(limit, codec, h, ops[0]), ops[1..]);
    }
  }

  /**
   Every run from an empty bank: within the limits, one plan for each incarnation, and whatever is written as
   the checkpoint, however much trimmed, is accepted when it is read back.
   */
  lemma EveryRunCanBeSaved<P(!new), L(!new)>(limit: nat, codec: Codec<P, L>, ops: seq<Op<P, L>>, t: Content<P, L>)
    requires WellFormedRun(ops)
    ensures var h := Run(limit, codec, Held([], [], []), ops);
            && |h.rows| <= limit && |h.attempted| <= limit && |h.plans| <= PlanLimit(limit) && OnePlanEach(h.plans)
            && (IsTrimmed(codec, Content(h.rows, Prepared(h.attempted), h.plans), t) ==>
                  && Acceptable(codec, limit, Checkpoint(ANSWER_VERSION, t, codec.hash(t)))
                  && t.prepared == Prepared(h.attempted) && OnePlanEach(t.plans))
  {
    var h := Run(limit, codec, Held([], [], []), ops);
    RunKeepsInv(limit, codec, Held([], [], []), ops);
    hide Run;
    hide Acceptable;
    hide IsTrimmed;
    hide LoadableRow;
    var full := Content(h.rows, Prepared(h.attempted), h.plans);
    if IsTrimmed(codec, full, t) {
      CheckpointIsAccepted(codec, limit, full, t);
      TrimmedHolds(codec, full, t);
      OneEachByMembers(full.plans, t.plans);
    }
  }
}
