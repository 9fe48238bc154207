/**
 `AnswerBank.run_once`: callers with the same question share one operation in flight, at most eight
 operations run at a time, and a waiter gets exactly what the owner of its future got. Each `with self.lock`
 block is one atomic step.
 */
module AnswerSharing {
  import opened Counting
  import opened Wrappers

  type Key = nat
  type Tid = nat

  /** The result of an operation, or the exception it raised. */
  type Outcome = int

  datatype Pc = Running | Clearing | Waiting | Busy | Returned(outcome: Outcome, shared: bool)

  datatype Thread = Thread(pc: Pc, key: Key, future: nat)

  /** `owner` remembers which thread made a future; nothing in a step depends on it. */
  datatype State = State(inflight: map<Key, nat>, futures: map<nat, Option<Outcome>>, next: nat,
                         threads: map<Tid, Thread>,
                         owner: map<nat, Tid>)

  const MAX_INFLIGHT := 8

  datatype Action = Enter(t: Tid, key: Key) | Settle(t: Tid, outcome: Outcome) | Clear(t: Tid) | Receive(t: Tid)

  function Init(): State {
    State(map[], map[], 0, map[], map[])
  }

  predicate At(s: State, t: Tid, pc: Pc) {
    t in s.threads && s.threads[t].pc == pc
  }

  predicate Outside(s: State, t: Tid) {
    t !in s.threads || s.threads[t].pc.Busy? || s.threads[t].pc.Returned?
  }

  predicate Enabled(s: State, a: Action) {
    match a
    case Enter(t, _) => Outside(s, t)
    case Settle(t, _) => At(s, t, Running)
    case Clear(t) => At(s, t, Clearing) && s.threads[t].future in s.futures && s.futures[s.threads[t].future].Some?
    case Receive(t) => At(s, t, Waiting) && s.threads[t].future in s.futures && s.futures[s.threads[t].future].Some?
  }

  function Goto(s: State, t: Tid, pc: Pc): State
    requires t in s.threads
  {
    s.(threads := s.threads[t := s.threads[t].(pc := pc)])
  }

  /** Joins the operation in flight, starts one, or is refused. */
  function Join(s: State, t: Tid, key: Key): State {
    if key in s.inflight then s.(threads := s.threads[t := Thread(Waiting, key, s.inflight[key])])
    else if |s.inflight| >= MAX_INFLIGHT then s.(threads := s.threads[t := Thread(Busy, key, 0)])
    else State(s.inflight[key := s.next], s.futures[s.next := None], s.next + 1,
               s.threads[t := Thread(Running, key, s.next)],
               s.owner[s.next := t])
  }

  function Perform(s: State, a: Action): State
    requires Enabled(s, a)
  {
    match a
    case Enter(t, key) => Join(s, t, key)
    case Settle(t, outcome) => Goto(s.(futures := s.futures[s.threads[t].future := Some(outcome)]), t, Clearing)
    case Clear(t) => Goto(s.(inflight := s.inflight - {s.threads[t].key}), t,
                          Returned(s.futures[s.threads[t].future].value, false))
    case Receive(t) => Goto(s, t, Returned(s.futures[s.threads[t].future].value, true))
  }

  // ---- The invariant ----

  predicate Owns(s: State, t: Tid) {
    t in s.threads && (s.threads[t].pc.Running? || s.threads[t].pc.Clearing?)
  }

  predicate OwnerOf(s: State, t: Tid, future: nat) {
    Owns(s, t) && s.threads[t].future == future
  }

  function Owners(s: State): set<Tid> {
    set t | t in s.threads && (s.threads[t].pc.Running? || s.threads[t].pc.Clearing?)
  }

  predicate Owned(s: State, f: nat) {
    f in s.owner && OwnerOf(s, s.owner[f], f)
  }

  /** An owner's future is the one registered for its key, pending while it runs and settled after. */
  ghost predicate OwnersOk(s: State) {
    forall t :: Owns(s, t) ==>
      var q := s.threads[t];
      q.key in s.inflight && s.inflight[q.key] == q.future && q.future in s.owner && s.owner[q.future] == t
      && q.future in s.futures && (s.futures[q.future].None? <==> q.pc.Running?)
  }

  ghost predicate InflightOk(s: State) {
    forall k :: k in s.inflight ==> Owned(s, s.inflight[k]) && s.threads[s.owner[s.inflight[k]]].key == k
  }

  /** Whoever waits has a future that is settled or that somebody is still working on. */
  ghost predicate WaitersOk(s: State) {
    forall t :: At(s, t, Waiting) ==>
      s.threads[t].future in s.futures && (s.futures[s.threads[t].future].None? ==> Owned(s, s.threads[t].future))
  }

  ghost predicate ReturnsOk(s: State) {
    forall t :: t in s.threads && s.threads[t].pc.Returned? ==>
      s.threads[t].future in s.futures && s.futures[s.threads[t].future] == Some(s.threads[t].pc.outcome)
  }

  ghost predicate CountOk(s: State) {
    |s.inflight| <= MAX_INFLIGHT && |Owners(s)| == |s.inflight|
      && forall f :: f in s.futures || f in s.owner ==> f < s.next
  }

  ghost predicate Inv(s: State) {
    OwnersOk(s) && InflightOk(s) && WaitersOk(s) && ReturnsOk(s) && CountOk(s)
  }

  ghost predicate OnlyMoved(s: State, u: State, t: Tid) {
    forall x :: x != t ==> (x in u.threads <==> x in s.threads) && (x in s.threads ==> u.threads[x] == s.threads[x])
  }

  lemma OwnersMoved(s: State, u: State, t: Tid)
    requires OnlyMoved(s, u, t)
    ensures |Owners(u)| - (if Owns(u, t) then 1 else 0) == |Owners(s)| - (if Owns(s, t) then 1 else 0)
  {
    SizeMoved(Owners(s), Owners(u), t);
  }

  lemma EnterOwners(s: State, t: Tid, key: Key)
    requires OwnersOk(s) && CountOk(s) && Enabled(s, Enter(t, key))
    ensures OwnersOk(Perform(s, Enter(t, key)))
  {
    hide Owners;
  }

  lemma EnterInflight(s: State, t: Tid, key: Key)
    requires InflightOk(s) && CountOk(s) && Enabled(s, Enter(t, key))
    ensures InflightOk(Perform(s, Enter(t, key)))
  {
    hide Owners;
  }

  lemma EnterWaiters(s: State, t: Tid, key: Key)
    requires OwnersOk(s) && InflightOk(s) && CountOk(s) && WaitersOk(s) && Enabled(s, Enter(t, key))
    ensures WaitersOk(Perform(s, Enter(t, key)))
  {
    hide Owners;
  }

  lemma SettleOwners(s: State, t: Tid, outcome: Outcome)
    requires OwnersOk(s) && InflightOk(s) && CountOk(s) && Enabled(s, Settle(t, outcome))
    ensures OwnersOk(Perform(s, Settle(t, outcome))) && InflightOk(Perform(s, Settle(t, outcome)))
  {
    hide Owners;
  }

  lemma SettleWaiters(s: State, t: Tid, outcome: Outcome)
    requires OwnersOk(s) && InflightOk(s) && CountOk(s) && WaitersOk(s) && Enabled(s, Settle(t, outcome))
    ensures WaitersOk(Perform(s, Settle(t, outcome)))
  {
    hide Owners;
  }

  lemma ClearOwners(s: State, t: Tid)
    requires OwnersOk(s) && InflightOk(s) && CountOk(s) && Enabled(s, Clear(t))
    ensures OwnersOk(Perform(s, Clear(t))) && InflightOk(Perform(s, Clear(t)))
  {
    hide Owners;
  }

  lemma ClearWaiters(s: State, t: Tid)
    requires OwnersOk(s) && InflightOk(s) && CountOk(s) && WaitersOk(s) && Enabled(s, Clear(t))
    ensures WaitersOk(Perform(s, Clear(t)))
  {
    hide Owners;
  }

  lemma ReceiveOwners(s: State, t: Tid)
    requires OwnersOk(s) && InflightOk(s) && CountOk(s) && Enabled(s, Receive(t))
    ensures OwnersOk(Perform(s, Receive(t))) && InflightOk(Perform(s, Receive(t)))
  {
    hide Owners;
  }

  lemma ReceiveWaiters(s: State, t: Tid)
    requires OwnersOk(s) && InflightOk(s) && CountOk(s) && WaitersOk(s) && Enabled(s, Receive(t))
    ensures WaitersOk(Perform(s, Receive(t)))
  {
    hide Owners;
  }

  lemma ReturnsKept(s: State, a: Action)
    requires OwnersOk(s) && CountOk(s) && ReturnsOk(s) && Enabled(s, a)
    ensures ReturnsOk(Perform(s, a))
  {
    hide Owners;
  }

  lemma KeysGrow(m: map<Key, nat>, k: Key, f: nat)
    ensures |m[k := f]| == |m| + (if k in m then 0 else 1)
  {
    assert m[k := f].Keys == m.Keys + {k};
  }

  lemma KeysDrop(m: map<Key, nat>, k: Key)
    requires k in m
    ensures |m - {k}| == |m| - 1
  {
    assert (m - {k}).Keys == m.Keys - {k};
  }

  lemma EnterCount(s: State, t: Tid, key: Key)
    requires CountOk(s) && Outside(s, t)
    ensures CountOk(Join(s, t, key))
  {
    OwnersMoved(s, Join(s, t, key), t);
    KeysGrow(s.inflight, key, s.next);
    hide Owners;
  }

  lemma LaterCount(s: State, a: Action)
    requires OwnersOk(s) && CountOk(s) && Enabled(s, a) && !a.Enter?
    ensures CountOk(Perform(s, a))
  {
    OwnersMoved(s, Perform(s, a), a.t);
    hide Owners;
    hide OnlyMoved;
    if a.Clear? { KeysDrop(s.inflight, s.threads[a.t].key); }
  }

  lemma StepKeepsInv(s: State, a: Action)
    requires Inv(s) && Enabled(s, a)
    ensures Inv(Perform(s, a))
  {
    hide OwnersOk;
    hide InflightOk;
    hide WaitersOk;
    hide ReturnsOk;
    hide CountOk;
    ReturnsKept(s, a);
    if a.Enter? { EnterCount(s, a.t, a.key); } else { LaterCount(s, a); }
    match a
    case Enter(t, key) => EnterOwners(s, t, key); EnterInflight(s, t, key); EnterWaiters(s, t, key);
    case Settle(t, outcome) => SettleOwners(s, t, outcome); SettleWaiters(s, t, outcome);
    case Clear(t) => ClearOwners(s, t); ClearWaiters(s, t);
    case Receive(t) => ReceiveOwners(s, t); ReceiveWaiters(s, t);
  }

  // ---- All interleavings ----

  function Run(s: State, actions: seq<Action>): Option<State>
    decreases |actions|
  {
    if actions == [] then Some(s)
    else if Enabled(s, actions[0]) then Run(Perform(s, actions[0]), actions[1..])
    else None
  }

  lemma {:induction false} RunKeepsInv(s: State, actions: seq<Action>)
    requires Inv(s) && Run(s, actions).Some?
    ensures Inv(Run(s, actions).value)
    decreases |actions|
  {
    if actions != [] {
      StepKeepsInv(s, actions[0]);
      RunKeepsInv(Perform(s, actions[0]), actions[1..]);
    }
  }

  function RunningThreads(s: State): set<Tid> {
    set t | t in s.threads && s.threads[t].pc.Running?
  }

  /**
   Every interleaving: operations for one question never overlap, at most eight run at once, and the outcomes
   of all callers that returned from the same future are equal.
   */
  lemma SharingSafety(actions: seq<Action>)
    requires Run(Init(), actions).Some?
    ensures var s := Run(Init(), actions).value;
            && (forall t, x ::
                At(s, t, Running) && At(s, x, Running) && s.threads[t].key == s.threads[x].key ==> t == x)
            && |RunningThreads(s)| <= MAX_INFLIGHT
            && (forall t, x ::
                  t in s.threads && x in s.threads && s.threads[t].pc.Returned? && s.threads[x].pc.Returned?
                  && s.threads[t].future == s.threads[x].future
                  ==> s.threads[t].pc.outcome == s.threads[x].pc.outcome)
  {
    assert Owners(Init()) == {};
    RunKeepsInv(Init(), actions);
    var s := Run(Init(), actions).value;
    assert Owners(s) == RunningThreads(s) + (Owners(s) - RunningThreads(s));
  }

  /** A settled future never changes, so a waiter may collect it long after the question left the map. */
  lemma SettledIsFinal(s: State, a: Action, f: nat)
    requires Inv(s) && Enabled(s, a) && f in s.futures && s.futures[f].Some?
    ensures f in Perform(s, a).futures && Perform(s, a).futures[f] == s.futures[f]
  {
  }

  /** Nobody waits for ever: whoever waits can receive, or the owner of its future can settle it. */
  lemma SharingProgress(s: State, t: Tid)
    requires Inv(s) && At(s, t, Waiting)
    ensures Enabled(s, Receive(t)) || (Owned(s, s.threads[t].future)
                                       && Enabled(s, Settle(s.owner[s.threads[t].future], 0)))
  {
    assert s.futures[s.threads[t].future].None? ==> Owns(s, s.owner[s.threads[t].future]);
  }

  // ---- Who starts, joins or is refused, and what is returned ----

  /** Some thread runs an operation for the key, or has not yet taken its result off the map. */
  ghost predicate InFlight(s: State, key: Key) {
    exists x :: Owns(s, x) && s.threads[x].key == key
  }

  lemma InFlightExactly(s: State, key: Key)
    requires Inv(s)
    ensures key in s.inflight <==> InFlight(s, key)
    ensures |s.inflight| == |Owners(s)|
  {
    if key in s.inflight { assert Owned(s, s.inflight[key]); }
  }

  /** A caller joins the operation for its question, or starts it unless eight others are in flight. */
  lemma EntersExactly(s: State, t: Tid, key: Key)
    requires Inv(s) && Enabled(s, Enter(t, key))
    ensures var u := Perform(s, Enter(t, key));
            && OnlyMoved(s, u, t) && t in u.threads && u.threads[t].key == key
            && (u.threads[t].pc.Waiting? <==> InFlight(s, key))
            && (u.threads[t].pc.Busy? <==> !InFlight(s, key) && |Owners(s)| >= 8)
            && (u.threads[t].pc.Running? <==> !InFlight(s, key) && |Owners(s)| < 8)
            && (u.threads[t].pc.Waiting? ==>
                  exists x :: Owns(s, x) && s.threads[x].key == key && s.threads[x].future == u.threads[t].future)
  {
    InFlightExactly(s, key);
    if key in s.inflight { assert Owned(s, s.inflight[key]); }
    hide Owners;
  }

  /** The owner's outcome is what its future holds, and what the owner and every waiter on it return. */
  lemma OutcomeIsShared(s: State, a: Action)
    requires Inv(s) && Enabled(s, a) && !a.Enter?
    ensures var u, f := Perform(s, a), s.threads[a.t].future;
            && OnlyMoved(s, u, a.t) && a.t in u.threads && u.threads[a.t].future == f && f in u.futures
            && (a.Settle? ==> u.futures[f] == Some(a.outcome) && u.threads[a.t].pc == Clearing)
            && (a.Clear? || a.Receive? ==>
                  s.futures[f].Some? && u.threads[a.t].pc == Returned(s.futures[f].value, a.Receive?))
            && (a.Clear? ==> !InFlight(u, s.threads[a.t].key))
  {
    if a.Clear? {
      StepKeepsInv(s, a);
      InFlightExactly(Perform(s, a), s.threads[a.t].key);
    }
    assert Owns(s, a.t) || a.Receive?;
  }

  /** A waiter can receive unless the operation it waits for still runs; every other step can be taken at once. */
  ghost predicate HeldUpOnlyBy(s: State, t: Tid)
    requires t in s.threads
  {
    match s.threads[t].pc
    case Running => forall outcome :: Enabled(s, Settle(t, outcome))
    case Clearing => Enabled(s, Clear(t))
    case Waiting =>
      Enabled(s, Receive(t)) <==> !exists x :: At(s, x, Running) && s.threads[x].future == s.threads[t].future
    case _ => forall key :: Enabled(s, Enter(t, key))
  }

  lemma HeldUpExactly(s: State, t: Tid)
    requires Inv(s) && t in s.threads
    ensures HeldUpOnlyBy(s, t)
  {
    match s.threads[t].pc
    case Waiting =>
      var f := s.threads[t].future;
      if s.futures[f].None? { assert Owned(s, f) && At(s, s.owner[f], Running); }
      forall x | At(s, x, Running) && s.threads[x].future == f ensures s.futures[f].None? { assert Owns(s, x); }
    case Clearing => assert Owns(s, t);
    case _ =>
  }

  /** In every reachable state: who starts an operation, joins one or is refused, and who waits for whom. */
  lemma CallersShare(actions: seq<Action>, t: Tid, key: Key)
    requires Run(Init(), actions).Some?
    ensures var s := Run(Init(), actions).value;
            && (forall x :: x in s.threads ==> HeldUpOnlyBy(s, x))
            && (Outside(s, t) ==>
                  var pc := Perform(s, Enter(t, key)).threads[t].pc;
                  if InFlight(s, key) then pc.Waiting? else if |Owners(s)| >= 8 then pc.Busy? else pc.Running?)
  {
    assert Owners(Init()) == {};
    RunKeepsInv(Init(), actions);
    var s := Run(Init(), actions).value;
    forall x | x in s.threads ensures HeldUpOnlyBy(s, x) { HeldUpExactly(s, x); }
    if Outside(s, t) { EntersExactly(s, t, key); }
    hide Inv;
    hide HeldUpOnlyBy;
  }
}
