/**
 Background preparation: a bounded queue that follows the reader's focus, one active run, and the
 unfinished-task count that `queue.join` waits on. Code between two awaits is one atomic step.
 */
module Prewarmer {
  import opened Wrappers
  import opened OrderedDict

  /** A book on the shelf, incarnation included. */
  type Key = nat

  /** The source frontier a preparation is for, and how often it was asked for again. */
  datatype Token = Token(epoch: int, bookmark: int, turn: int)

  /** What the catalog answers about a book. */
  datatype Shelf = Missing | Shelf(epoch: int, bookmark: int, progress: int)

  datatype Active = Active(key: Key, token: Option<Token>, cancelled: bool)

  /** A queued `None` tells the runner to stop. */
  datatype State = State(queue: seq<Option<Key>>, pending: map<Key, Token>, completed: seq<Item<Key, Token>>,
                         focus: Option<Key>, active: Option<Active>, closed: bool, stopped: bool, unfinished: int)

  const CAPACITY := 8
  const COMPLETED_LIMIT := 128

  function Init(): State {
    State([], map[], [], None, None, false, false, 0)
  }

  predicate IsActive(s: State, key: Key) {
    s.active.Some? && s.active.value.key == key
  }

  function Cancel(s: State): State {
    if s.active.Some? then s.(active := Some(s.active.value.(cancelled := true))) else s
  }

  function Find(pending: map<Key, Token>, key: Key): Option<Token> {
    if key in pending then Some(pending[key]) else None
  }

  // ---- Focusing the queue ----

  /** The first `n` drained entries that are put back. */
  function Kept(queue: seq<Option<Key>>, key: Key, n: nat): seq<Option<Key>>
    requires n <= |queue|
  {
    if n == 0 then []
    else if queue[n - 1] == Some(key) then Kept(queue, key, n - 1) + [queue[n - 1]]
    else Kept(queue, key, n - 1)
  }

  /** `pending` once the first `n` drained entries other than `key` and the active one are forgotten. */
  function Forgotten(pending: map<Key, Token>, queue: seq<Option<Key>>, key: Option<Key>, active: Option<Key>,
                     n: nat): map<Key, Token>
    requires n <= |queue|
  {
    if n == 0 then pending
    else
      var prior := Forgotten(pending, queue, key, active, n - 1);
      if queue[n - 1].None? || queue[n - 1] == key || queue[n - 1] == active then prior
      else prior - {queue[n - 1].value}
  }

  function ActiveKey(s: State): Option<Key> {
    if s.active.Some? then Some(s.active.value.key) else None
  }

  /** Drains the queue and puts the focused key back; the drained tasks are still unfinished. */
  function Focused(s: State, key: Key): State {
    var kept := Kept(s.queue, key, |s.queue|);
    s.(queue := kept, pending := Forgotten(s.pending, s.queue, Some(key), ActiveKey(s), |s.queue|),
       unfinished := s.unfinished + |kept|)
  }

  // ---- Scheduling ----

  predicate Eligible(shelf: Shelf) {
    shelf.Shelf? && shelf.bookmark > 0 && shelf.progress >= shelf.bookmark
  }

  predicate SameBase(t: Token, shelf: Shelf)
    requires shelf.Shelf?
  {
    t.epoch == shelf.epoch && t.bookmark == shelf.bookmark
  }

  function Prior(s: State, key: Key): Option<Token> {
    if key in s.pending then Some(s.pending[key]) else Get(s.completed, key)
  }

  /** The token asked for, before the active run is considered. */
  function Asked(s: State, key: Key, force: bool, shelf: Shelf): Token
    requires shelf.Shelf?
  {
    var prior := Prior(s, key);
    if !force && prior.Some? && SameBase(prior.value, shelf) then prior.value
    else Token(shelf.epoch, shelf.bookmark, if force && prior.Some? then prior.value.turn + 1 else 0)
  }

  /** A request for the active book cancels a stale run; one for a cancelled run asks for another turn. */
  function ForActive(s: State, key: Key, asked: Token): (State, Token) {
    if !IsActive(s, key) then (s, asked)
    else if s.active.value.token != Some(asked) then (Cancel(s), asked)
    else if s.active.value.cancelled then (s, asked.(turn := asked.turn + 1))
    else (s, asked)
  }

  function Enqueue(s: State, key: Key, token: Token): State {
    if key in s.pending then s.(pending := s.pending[key := token])
    else if |s.queue| < CAPACITY then
      s.(pending := s.pending[key := token], queue := s.queue + [Some(key)], unfinished := s.unfinished + 1)
    else s
  }

  function Decide(s: State, key: Key, force: bool, shelf: Shelf): State {
    if s.focus.Some? && s.focus.value != key then s
    else if !Eligible(shelf) then (if IsActive(s, key) then Cancel(s) else s)
    else
      var (t, token) := ForActive(s, key, Asked(s, key, force, shelf));
      if !force && Get(t.completed, key) == Some(token) then t else Enqueue(t, key, token)
  }

  function Foreground(s: State, key: Key): State {
    var focused := s.(focus := Some(key));
    Focused(if s.active.Some? && s.active.value.key != key then Cancel(focused) else focused, key)
  }

  function Schedule(s: State, key: Key, force: bool, foreground: bool, shelf: Shelf): State {
    if s.closed then s
    else if !foreground then Decide(s, key, force, shelf)
    else
      var decided := Decide(Foreground(s, key), key, force, shelf);
      decided.(unfinished := decided.unfinished - |s.queue|)
  }

  // ---- The runner ----

  function Take(s: State): State
    requires s.queue != [] && s.active.None? && !s.stopped
  {
    var rest := s.(queue := s.queue[1..]);
    match s.queue[0]
    case None => rest.(stopped := true, unfinished := s.unfinished - 1)
    case Some(key) => rest.(active := Some(Active(key, Find(s.pending, key), false)))
  }

  function Settled(s: State, done: bool): State
    requires s.active.Some?
  {
    var run := s.active.value;
    var idle := s.(pending := s.pending - {run.key}, active := None);
    if done && !run.cancelled && run.token.Some?
    then idle.(completed := Newest(PutLast(s.completed, run.key, run.token.value), COMPLETED_LIMIT))
    else idle
  }

  predicate WantsSuccessor(s: State)
    requires s.active.Some?
  {
    var latest := Find(s.pending, s.active.value.key);
    latest.Some? && latest != s.active.value.token && !s.closed
  }

  /** The end of a run, whatever became of it; `done` tells a finished or failed run from a stale one. */
  function Finish(s: State, done: bool, shelf: Shelf): State
    requires s.active.Some?
  {
    var settled := Settled(s, done);
    var next := if WantsSuccessor(s) then Schedule(settled, s.active.value.key, true, false, shelf) else settled;
    next.(unfinished := next.unfinished - 1)
  }

  function Close(s: State): State {
    s.(closed := true, active := Cancel(s).active, queue := [None],
       pending := Forgotten(s.pending, s.queue, None, ActiveKey(s), |s.queue|),
       unfinished := s.unfinished - |s.queue| + 1)
  }

  datatype Action =
    | Notify(key: Key, force: bool, foreground: bool, shelf: Shelf)
    | Start
    | End(done: bool, shelf: Shelf)
    | Shut

  predicate Enabled(s: State, a: Action) {
    match a
    case Notify(_, _, _, _) => true
    case Start => s.queue != [] && s.active.None? && !s.stopped
    case End(_, _) => s.active.Some?
    case Shut => !s.closed
  }

  function Perform(s: State, a: Action): State
    requires Enabled(s, a)
  {
    match a
    case Notify(key, force, foreground, shelf) => Schedule(s, key, force, foreground, shelf)
    case Start => Take(s)
    case End(done, shelf) => Finish(s, done, shelf)
    case Shut => Close(s)
  }

  // ---- The invariant ----

  function Running(s: State): int {
    if s.active.Some? then 1 else 0
  }

  ghost predicate QueueOk(s: State) {
    && |s.queue| <= CAPACITY
    && (forall i :: 0 <= i < |s.queue| ==> s.queue[i].Some?)
    && (forall i, j :: 0 <= i < j < |s.queue| ==> s.queue[i] != s.queue[j])
    && (s.active.Some? ==> Some(s.active.value.key) !in s.queue)
    && (s.focus.Some? ==> forall i :: 0 <= i < |s.queue| ==> s.queue[i] == s.focus)
  }

  /** Exactly the queued books and the active one are pending. */
  ghost predicate PendingOk(s: State) {
    forall k :: k in s.pending <==> Some(k) in s.queue || IsActive(s, k)
  }

  /** A pending token that differs from the running one has cancelled the run. */
  ghost predicate CancelOk(s: State) {
    s.active.Some? ==> s.active.value.token.Some?
                       && (Find(s.pending, s.active.value.key) != s.active.value.token ==> s.active.value.cancelled)
  }

  ghost predicate ClosedOk(s: State) {
    && (s.stopped ==> s.queue == [] && s.active.None?) && (!s.stopped ==> s.queue == [None])
    && (forall k :: k in s.pending ==> IsActive(s, k))
  }

  ghost predicate Inv(s: State) {
    && s.unfinished == |s.queue| + Running(s)
    && if s.closed then ClosedOk(s) else !s.stopped && QueueOk(s) && PendingOk(s) && CancelOk(s)
  }

  /** The open state inside a step, while `held` further tasks are still to be counted as done. */
  ghost predicate Open(s: State, held: int) {
    !s.closed && !s.stopped && QueueOk(s) && PendingOk(s) && CancelOk(s)
      && s.unfinished == |s.queue| + Running(s) + held
  }

  // ---- Steps ----

  lemma {:induction false} KeptIsFocus(queue: seq<Option<Key>>, key: Key, n: nat)
    requires n <= |queue| && forall i, j :: 0 <= i < j < |queue| ==> queue[i] != queue[j]
    ensures Kept(queue, key, n) == if Some(key) in queue[..n] then [Some(key)] else []
  {
    if n > 0 {
      KeptIsFocus(queue, key, n - 1);
      assert queue[..n] == queue[..n - 1] + [queue[n - 1]];
    }
  }

  lemma {:induction false} ForgottenKeys(pending: map<Key, Token>, queue: seq<Option<Key>>, key: Option<Key>,
                                         active: Option<Key>, n: nat)
    requires n <= |queue|
    ensures forall k :: k in Forgotten(pending, queue, key, active, n)
              <==> k in pending && (Some(k) in queue[..n] ==> Some(k) == key || Some(k) == active)
    ensures forall k ::
            k in Forgotten(pending, queue, key, active, n)
            ==> Forgotten(pending, queue, key, active, n)[k] == pending[k]
  {
    if n > 0 {
      ForgottenKeys(pending, queue, key, active, n - 1);
      assert queue[..n] == queue[..n - 1] + [queue[n - 1]];
    }
  }

  lemma FocusedQueue(s: State, key: Key)
    requires Open(s, 0)
    ensures Foreground(s, key).queue == if Some(key) in s.queue then [Some(key)] else []
    ensures QueueOk(Foreground(s, key))
  {
    hide Kept;
    hide Forgotten;
    hide PendingOk;
    hide CancelOk;
    KeptIsFocus(s.queue, key, |s.queue|);
    assert s.queue[..|s.queue|] == s.queue;
  }

  /** Only the focused key is left queued, and `queue.join` still waits for every drained task. */
  lemma ForegroundStep(s: State, key: Key)
    requires Open(s, 0)
    ensures Open(Foreground(s, key), |s.queue|)
    ensures Foreground(s, key).queue == if Some(key) in s.queue then [Some(key)] else []
  {
    hide Kept;
    hide Forgotten;
    hide PendingOk;
    hide CancelOk;
    hide QueueOk;
    FocusedQueue(s, key);
    FocusedPending(s, key);
  }

  lemma FocusedPending(s: State, key: Key)
    requires Open(s, 0)
    ensures PendingOk(Foreground(s, key)) && CancelOk(Foreground(s, key))
  {
    hide Kept;
    KeptIsFocus(s.queue, key, |s.queue|);
    ForgottenKeys(s.pending, s.queue, Some(key), ActiveKey(s), |s.queue|);
    assert s.queue[..|s.queue|] == s.queue;
  }

  lemma ForActiveStep(s: State, key: Key, asked: Token, held: int)
    requires Open(s, held)
    ensures var (t, token) := ForActive(s, key, asked);
            Open(t, held) && t.focus == s.focus
            && (IsActive(t, key) && t.active.value.token != Some(token) ==> t.active.value.cancelled)
  {
  }

  lemma EnqueueStep(s: State, key: Key, token: Token, held: int)
    requires Open(s, held) && (s.focus.Some? ==> s.focus.value == key)
    requires IsActive(s, key) && s.active.value.token != Some(token) ==> s.active.value.cancelled
    ensures Open(Enqueue(s, key, token), held)
  {
    var u := Enqueue(s, key, token);
    if key !in s.pending && |s.queue| < CAPACITY {
      assert Some(key) !in s.queue;
      assert forall k :: k in u.queue <==> k in s.queue || k == Some(key);
    }
  }

  lemma DecideStep(s: State, key: Key, force: bool, shelf: Shelf, held: int)
    requires Open(s, held)
    ensures Open(Decide(s, key, force, shelf), held)
  {
    hide ForActive;
    hide Enqueue;
    hide QueueOk;
    hide PendingOk;
    if !(s.focus.Some? && s.focus.value != key) && Eligible(shelf) {
      var (t, token) := ForActive(s, key, Asked(s, key, force, shelf));
      ForActiveStep(s, key, Asked(s, key, force, shelf), held);
      EnqueueStep(t, key, token, held);
    } else {
      CancelStep(s, held);
    }
  }

  lemma CancelStep(s: State, held: int)
    requires Open(s, held)
    ensures Open(Cancel(s), held)
  {
  }

  lemma ScheduleStep(s: State, key: Key, force: bool, foreground: bool, shelf: Shelf)
    requires Open(s, 0)
    ensures Open(Schedule(s, key, force, foreground, shelf), 0)
  {
    if foreground {
      ForegroundStep(s, key);
      DecideStep(Foreground(s, key), key, force, shelf, |s.queue|);
    } else {
      DecideStep(s, key, force, shelf, 0);
    }
  }

  lemma TakeStep(s: State)
    requires Inv(s) && Enabled(s, Start)
    ensures Inv(Take(s))
  {
    assert s.queue == [s.queue[0]] + s.queue[1..];
  }

  lemma SettledStep(s: State, done: bool)
    requires Open(s, 0) && s.active.Some?
    ensures Open(Settled(s, done), 1)
  {
  }

  lemma FinishStep(s: State, done: bool, shelf: Shelf)
    requires Inv(s) && s.active.Some?
    ensures Inv(Finish(s, done, shelf))
  {
    if !s.closed {
      SettledStep(s, done);
      DecideStep(Settled(s, done), s.active.value.key, true, shelf, 1);
    }
  }

  lemma CloseStep(s: State)
    requires Inv(s) && !s.closed
    ensures Inv(Close(s))
  {
    ForgottenKeys(s.pending, s.queue, None, ActiveKey(s), |s.queue|);
    assert s.queue[..|s.queue|] == s.queue;
  }

  lemma StepKeepsInv(s: State, a: Action)
    requires Inv(s) && Enabled(s, a)
    ensures Inv(Perform(s, a))
  {
    match a
    case Notify(key, force, foreground, shelf) =>
      if !s.closed { ScheduleStep(s, key, force, foreground, shelf); }
    case Start => TakeStep(s);
    case End(done, shelf) => FinishStep(s, done, shelf);
    case Shut => CloseStep(s);
  }

  // ---- All runs ----

  function Run(s: State, actions: seq<Action>): Option<State>
    decreases |actions|
  {
    if actions == [] then Some(s)
    else if Enabled(s, actions[0]) then Run(Perform(s, actions[0]), actions[1..])
    else None
  }

  lemma {:induction false} RunKeepsInv(s: State, actions: seq<Action>)
    requires Inv(s) && Run(s, actions).Some?
    ensures Inv(Run(s, actions).value)
    decreases |actions|
  {
    if actions != [] {
      StepKeepsInv(s, actions[0]);
      RunKeepsInv(Perform(s, actions[0]), actions[1..]);
    }
  }

  /**
   Every reachable state before close: queued books are distinct, at most eight, and under a focus only the
   focused one; exactly the queued books and the active one, never queued itself, are pending; and the
   unfinished count is the queue plus the active run, so `join` wakes exactly when nothing is left.
   */
  lemma PrewarmSafety(actions: seq<Action>)
    requires Run(Init(), actions).Some? && !Run(Init(), actions).value.closed
    ensures var s := Run(Init(), actions).value;
            && |s.queue| <= CAPACITY
            && (forall i, j :: 0 <= i < j < |s.queue| ==> s.queue[i] != s.queue[j])
            && (forall k :: k in s.pending <==> Some(k) in s.queue || IsActive(s, k))
            && (s.active.Some? ==> Some(s.active.value.key) !in s.queue)
            && (s.focus.Some? ==> forall i :: 0 <= i < |s.queue| ==> s.queue[i] == s.focus)
            && s.unfinished == |s.queue| + Running(s)
            && (s.unfinished == 0 <==> s.queue == [] && s.active.None?)
  {
    RunKeepsInv(Init(), actions);
  }

  /** No action counts more tasks done than are unfinished: `task_done` never raises. */
  lemma TaskDoneNeverOverruns(s: State, a: Action)
    requires Inv(s) && Enabled(s, a)
    ensures Perform(s, a).unfinished >= 0
    ensures a.End? ==> s.unfinished >= 1
    ensures a.Notify? && a.foreground && !s.closed ==> s.unfinished >= |s.queue|
  {
    StepKeepsInv(s, a);
  }

  /** After `close`, the active run ends, the runner stops, nothing is pending and `join` wakes. */
  lemma CloseWindsDown(s: State, done: bool, shelf: Shelf)
    requires Inv(s) && s.closed && !s.stopped
    ensures var idle := if s.active.Some? then Finish(s, done, shelf) else s;
            && Enabled(idle, Start)
            && Take(idle).stopped && Take(idle).unfinished == 0 && Take(idle).pending == map[]
  {
    if s.active.Some? { FinishStep(s, done, shelf); }
    var idle := if s.active.Some? then Finish(s, done, shelf) else s;
    TakeStep(idle);
    assert forall k :: k !in Take(idle).pending;
  }

  // ---- A changed frontier is never lost ----

  /** The active run is behind: its book has been asked for again with another token. */
  predicate Behind(s: State, key: Key) {
    IsActive(s, key) && key in s.pending && s.active.value.token != Some(s.pending[key])
  }

  /**
   When a run that fell behind ends, a successor is queued exactly when its book still has the focus, or
   nobody has and the queue has room, provided the book is still eligible and the prewarmer is open.
   */
  lemma SuccessorExactly(s: State, key: Key, done: bool, shelf: Shelf)
    requires Inv(s) && !s.closed && Behind(s, key) && Eligible(shelf)
    ensures Some(key) in Finish(s, done, shelf).queue
            <==> s.focus == Some(key) || (s.focus.None? && |s.queue| < CAPACITY)
    ensures s.focus == Some(key) ==>
            Finish(s, done, shelf).queue == [Some(key)] && key in Finish(s, done, shelf).pending
  {
    assert |s.queue| > 0 ==> s.queue[0] in s.queue;
  }

  /** The token that a request for the active book comes to. */
  function Wanted(s: State, key: Key, force: bool, shelf: Shelf): Token
    requires shelf.Shelf?
  {
    ForActive(s, key, Asked(s, key, force, shelf)).1
  }

  lemma ActiveKeepsFocus(s: State, key: Key)
    requires Inv(s) && !s.closed && IsActive(s, key)
    ensures var f := Foreground(s, key);
            && f.active == s.active && f.completed == s.completed && f.focus == Some(key)
            && key in s.pending && key in f.pending && f.pending[key] == s.pending[key]
  {
    ForgottenKeys(s.pending, s.queue, Some(key), ActiveKey(s), |s.queue|);
  }

  lemma DecideForActive(f: State, key: Key, force: bool, shelf: Shelf)
    requires IsActive(f, key) && key in f.pending && f.focus == Some(key) && Eligible(shelf) && CancelOk(f)
    requires force || f.active.value.cancelled || !SameBase(f.active.value.token.value, shelf)
    ensures var t := Decide(f, key, force, shelf);
            && key in t.pending && t.completed == f.completed
            && if !force && Get(f.completed, key) == Some(Wanted(f, key, force, shelf))
               then t.pending[key] == f.pending[key]
               else Behind(t, key) && t.pending[key] == Wanted(f, key, force, shelf)
  {
  }

  /**
   An eligible request for the active book leaves its run behind, unless exactly what it asks for has been
   completed before.
   */
  lemma NewRequestLeavesBehind(s: State, key: Key, force: bool, shelf: Shelf)
    requires Inv(s) && !s.closed && IsActive(s, key) && Eligible(shelf)
    requires force || s.active.value.cancelled || !SameBase(s.active.value.token.value, shelf)
    ensures key in s.pending && key in Schedule(s, key, force, true, shelf).pending
    ensures var t := Schedule(s, key, force, true, shelf);
            if !force && Get(s.completed, key) == Some(Wanted(s, key, force, shelf))
            then t.pending[key] == s.pending[key] && t.completed == s.completed
            else Behind(t, key) && t.pending[key] == Wanted(s, key, force, shelf)
  {
    var f := Foreground(s, key);
    ActiveKeepsFocus(s, key);
    DecideForActive(f, key, force, shelf);
    assert Wanted(f, key, force, shelf) == Wanted(s, key, force, shelf);
    hide Decide;
    hide Foreground;
    hide Wanted;
  }

  /** Once behind, a run stays behind until it ends, whatever is notified meanwhile. */
  lemma BehindIsStable(s: State, key: Key, a: Action)
    requires Inv(s) && !s.closed && Behind(s, key) && a.Notify?
    ensures Behind(Perform(s, a), key)
  {
    if a.foreground {
      ForegroundStep(s, a.key);
      ForgottenKeys(s.pending, s.queue, Some(a.key), ActiveKey(s), |s.queue|);
      DecideKeepsBehind(Foreground(s, a.key), key, a.key, a.force, a.shelf);
    } else {
      DecideKeepsBehind(s, key, a.key, a.force, a.shelf);
    }
  }

  lemma DecideKeepsBehind(s: State, key: Key, asked: Key, force: bool, shelf: Shelf)
    requires Behind(s, key) && s.active.value.cancelled
    ensures Behind(Decide(s, asked, force, shelf), key)
  {
  }

  predicate OnlyNotifies(actions: seq<Action>) {
    forall i :: 0 <= i < |actions| ==> actions[i].Notify?
  }

  /**
   A change of the focused book's frontier while it is being prepared: after any further notifications, if
   the book has the focus when its run ends and is still eligible, its preparation is queued again.
   */
  lemma {:induction false} ChangeIsNeverLost(s: State, key: Key, actions: seq<Action>, done: bool, shelf: Shelf)
    requires Inv(s) && !s.closed && Behind(s, key) && OnlyNotifies(actions) && Run(s, actions).Some?
    requires Run(s, actions).value.focus == Some(key) && Eligible(shelf)
    ensures var last := Run(s, actions).value;
            last.active.Some? && Finish(last, done, shelf).queue == [Some(key)]
    decreases |actions|
  {
    if actions == [] {
      SuccessorExactly(s, key, done, shelf);
    } else {
      StepKeepsInv(s, actions[0]);
      BehindIsStable(s, key, actions[0]);
      ScheduleKeepsOpen(s, actions[0]);
      ChangeIsNeverLost(Perform(s, actions[0]), key, actions[1..], done, shelf);
    }
  }

  lemma ScheduleKeepsOpen(s: State, a: Action)
    requires a.Notify? && !s.closed
    ensures !Perform(s, a).closed
  {
  }

  // ---- A request is heard ----

  /** What is asked for has been prepared already. */
  ghost predicate AlreadyPrepared(s: State, key: Key, shelf: Shelf)
    requires shelf.Shelf?
  {
    exists token :: Item(key, token) in s.completed && SameBase(token, shelf)
  }

  /** The request is about the book in focus, or brings it there, or there is no focus. */
  predicate InFocus(s: State, key: Key, foreground: bool) {
    foreground || s.focus.None? || s.focus.value == key
  }

  lemma PreparedByLookup(s: State, key: Key, shelf: Shelf)
    requires DistinctKeys(s.completed) && shelf.Shelf?
    ensures AlreadyPrepared(s, key, shelf) <==>
            Get(s.completed, key).Some? && SameBase(Get(s.completed, key).value, shelf)
  {
    forall token | Item(key, token) in s.completed ensures Get(s.completed, key) == Some(token) {
      GetIsMember(s.completed, key, token);
    }
    if Get(s.completed, key).Some? { GetIsMember(s.completed, key, Get(s.completed, key).value); }
  }

  lemma IdleDecision(s: State, key: Key, force: bool, shelf: Shelf)
    requires DistinctKeys(s.completed) && Eligible(shelf) && key !in s.pending && !IsActive(s, key)
    requires s.focus.Some? ==> s.focus.value == key
    ensures var t := Decide(s, key, force, shelf);
            if (!force && AlreadyPrepared(s, key, shelf)) || |s.queue| >= CAPACITY then t == s
            else t.queue == s.queue + [Some(key)] && key in t.pending && SameBase(t.pending[key], shelf)
  {
    PreparedByLookup(s, key, shelf);
  }

  /**
   A request for an eligible book that is neither queued nor active queues it, for the frontier on the shelf, exactly
   when another book has not the focus, there is room or it clears the queue, and it is forced or not yet prepared.
   */
  lemma RequestIsQueued(s: State, key: Key, force: bool, foreground: bool, shelf: Shelf)
    requires Inv(s) && !s.closed && DistinctKeys(s.completed) && Eligible(shelf) && key !in s.pending
    ensures var u := Schedule(s, key, force, foreground, shelf);
            && (Some(key) in u.queue <==>
                  && InFocus(s, key, foreground) && (force || !AlreadyPrepared(s, key, shelf))
                  && (foreground || |s.queue| < CAPACITY))
            && (Some(key) in u.queue ==> key in u.pending && SameBase(u.pending[key], shelf))
            && (foreground ==> u.queue == if Some(key) in u.queue then [Some(key)] else [])
  {
    var f := if foreground then Foreground(s, key) else s;
    if foreground {
      ForegroundStep(s, key);
      ForgottenKeys(s.pending, s.queue, Some(key), ActiveKey(s), |s.queue|);
    }
    assert Some(key) !in s.queue && key !in f.pending && !IsActive(f, key) && Some(key) !in f.queue;
    assert f.completed == s.completed;
    if InFocus(s, key, foreground) { IdleDecision(f, key, force, shelf); }
    hide Foreground;
    hide QueueOk;
    hide Eligible;
    hide Asked;
    if InFocus(s, key, foreground) { hide Decide; }
  }

  /**
   A request cancels the active run exactly when it brings another book into focus, or is about the active book and
   forces it, finds it no longer eligible or finds its frontier changed.
   */
  lemma CancelledExactly(s: State, key: Key, force: bool, foreground: bool, shelf: Shelf)
    requires Inv(s) && !s.closed && s.active.Some?
    ensures var run, u := s.active.value, Schedule(s, key, force, foreground, shelf);
            && u.active.Some? && u.active.value.key == run.key && u.active.value.token == run.token
            && (u.active.value.cancelled <==>
                  || run.cancelled || (foreground && key != run.key)
                  || (key == run.key && InFocus(s, key, foreground)
                      && (force || !Eligible(shelf) || !SameBase(run.token.value, shelf))))
  {
    var f := if foreground then Foreground(s, key) else s;
    if foreground { ForgottenKeys(s.pending, s.queue, Some(key), ActiveKey(s), |s.queue|); }
    assert f.active == if foreground && key != s.active.value.key then Cancel(s).active else s.active;
    assert IsActive(s, key) ==> key in f.pending && f.pending[key] == s.pending[key];
    DecideCancels(f, key, force, shelf);
    hide Foreground;
    hide Decide;
    hide QueueOk;
  }

  lemma DecideCancels(s: State, key: Key, force: bool, shelf: Shelf)
    requires s.active.Some? && s.active.value.token.Some?
    requires IsActive(s, key) ==>
               key in s.pending && (Some(s.pending[key]) != s.active.value.token ==> s.active.value.cancelled)
    ensures var run, t := s.active.value, Decide(s, key, force, shelf).active;
            && t.Some? && t.value.key == run.key && t.value.token == run.token
            && (t.value.cancelled <==>
                  || run.cancelled
                  || (key == run.key && (s.focus.Some? ==> s.focus.value == key)
                      && (force || !Eligible(shelf) || !SameBase(run.token.value, shelf))))
  {
  }

  // ---- A finished preparation is not repeated ----

  /** The book is prepared for this token and nothing more is asked of it. */
  ghost predicate Rests(s: State, key: Key, token: Token) {
    && !s.closed && key !in s.pending && !IsActive(s, key)
    && DistinctKeys(s.completed) && |s.completed| <= COMPLETED_LIMIT && Item(key, token) in s.completed
  }

  /** The action asks for more than was prepared: by force, or because the book's frontier has changed. */
  predicate AsksAnew(a: Action, key: Key, token: Token) {
    a.Notify? && a.key == key && (a.force || (Eligible(a.shelf) && !SameBase(token, a.shelf)))
  }

  /** The newest 128 finished preparations are remembered. */
  ghost predicate PushedOut(s: State, a: Action, key: Key) {
    a.End? && |s.completed| == COMPLETED_LIMIT && s.completed[0].key == key
  }

  lemma SettledRemembers(s: State, done: bool, key: Key, token: Token)
    requires Rests(s, key, token) && s.active.Some?
    ensures var u := Settled(s, done);
            && DistinctKeys(u.completed) && |u.completed| <= COMPLETED_LIMIT
            && (Item(key, token) in u.completed || PushedOut(s, End(done, Missing), key))
  {
    var run := s.active.value;
    if done && !run.cancelled && run.token.Some? {
      var put := PutLast(s.completed, run.key, run.token.value);
      PutLastFacts(s.completed, run.key, run.token.value);
      NewestFacts(put, COMPLETED_LIMIT);
      assert Item(key, token) in put;
      if |put| > COMPLETED_LIMIT { OldestGoes(s.completed, put, Item(key, token)); }
    }
  }

  lemma OldestGoes(was: seq<Item<Key, Token>>, put: seq<Item<Key, Token>>, x: Item<Key, Token>)
    requires |was| == COMPLETED_LIMIT && |put| == COMPLETED_LIMIT + 1 && was <= put && x in was
    ensures x in Newest(put, COMPLETED_LIMIT) || was[0] == x
  {
    var i :| 0 <= i < |was| && was[i] == x;
    if i > 0 { assert Newest(put, COMPLETED_LIMIT)[i - 1] == x; }
  }

  /** What a decision about one book leaves alone. */
  ghost predicate Elsewhere(s: State, t: State, key: Key) {
    && (key in t.pending <==> key in s.pending) && (IsActive(t, key) <==> IsActive(s, key))
    && t.completed == s.completed && t.closed == s.closed
  }

  lemma CancelledElsewhere(s: State, other: Key, asked: Token, key: Key)
    ensures Elsewhere(s, Cancel(s), key) && Elsewhere(s, ForActive(s, other, asked).0, key)
  {
  }

  lemma EnqueuedElsewhere(s: State, t: State, other: Key, token: Token, key: Key)
    requires Elsewhere(s, t, key) && other != key
    ensures Elsewhere(s, Enqueue(t, other, token), key)
  {
  }

  lemma DecideElsewhere(s: State, other: Key, force: bool, shelf: Shelf, key: Key)
    requires other != key
    ensures Elsewhere(s, Decide(s, other, force, shelf), key)
  {
    if Eligible(shelf) {
      var (t, token) := ForActive(s, other, Asked(s, other, force, shelf));
      CancelledElsewhere(s, other, Asked(s, other, force, shelf), key);
      EnqueuedElsewhere(s, t, other, token, key);
    } else {
      CancelledElsewhere(s, other, Token(0, 0, 0), key);
    }
    assert Elsewhere(s, s, key);
    hide Elsewhere;
    hide ForActive;
    hide Enqueue;
    hide Cancel;
    hide Asked;
    hide Get;
  }

  lemma DecideAgain(s: State, key: Key, shelf: Shelf, token: Token)
    requires Rests(s, key, token) && (Eligible(shelf) ==> SameBase(token, shelf))
    ensures Decide(s, key, false, shelf) == s
  {
    GetIsMember(s.completed, key, token);
  }

  lemma ForegroundRests(s: State, other: Key, key: Key, token: Token)
    requires Rests(s, key, token)
    ensures Rests(Foreground(s, other), key, token)
  {
    ForgottenKeys(s.pending, s.queue, Some(other), ActiveKey(s), |s.queue|);
  }

  lemma NotifyRests(s: State, a: Action, key: Key, token: Token)
    requires Rests(s, key, token) && a.Notify? && !AsksAnew(a, key, token)
    ensures Rests(Perform(s, a), key, token)
  {
    var f := if a.foreground then Foreground(s, a.key) else s;
    if a.foreground { ForegroundRests(s, a.key, key, token); }
    if a.key == key { DecideAgain(f, key, a.shelf, token); } else { DecideElsewhere(f, a.key, a.force, a.shelf, key); }
    hide Decide;
    hide Foreground;
  }

  lemma EndRests(s: State, done: bool, shelf: Shelf, key: Key, token: Token)
    requires Rests(s, key, token) && s.active.Some?
    ensures Rests(Finish(s, done, shelf), key, token) || PushedOut(s, End(done, shelf), key)
  {
    SettledRemembers(s, done, key, token);
    DecideElsewhere(Settled(s, done), s.active.value.key, true, shelf, key);
    hide Decide;
  }

  /**
   Nothing but a forced request or a changed frontier makes a finished preparation run again, unless 128 others
   have pushed it out.
   */
  lemma FinishedIsNotRepeated(s: State, a: Action, key: Key, token: Token)
    requires Inv(s) && Enabled(s, a) && Rests(s, key, token) && !a.Shut? && !AsksAnew(a, key, token)
    ensures Rests(Perform(s, a), key, token) || PushedOut(s, a, key)
  {
    match a
    case Notify(_, _, _, _) => NotifyRests(s, a, key, token);
    case Start =>
      assert s.queue[0] in s.queue;
    case End(done, shelf) => EndRests(s, done, shelf, key, token);
    case Shut =>
  }

  /** A run that finishes or fails, and was not left behind, puts its book to rest. */
  lemma FinishedRests(s: State, shelf: Shelf, token: Token)
    requires Inv(s) && !s.closed && Remembered(s)
    requires s.active.Some? && s.active.value.token == Some(token) && !s.active.value.cancelled
    ensures Rests(Finish(s, true, shelf), s.active.value.key, token)
  {
    var key := s.active.value.key;
    var put := PutLast(s.completed, key, token);
    PutLastFacts(s.completed, key, token);
    NewestFacts(put, COMPLETED_LIMIT);
    assert put[|put| - 1] == Item(key, token);
    assert Newest(put, COMPLETED_LIMIT)[|Newest(put, COMPLETED_LIMIT)| - 1] == Item(key, token);
  }

  ghost predicate Remembered(s: State) {
    DistinctKeys(s.completed) && |s.completed| <= COMPLETED_LIMIT
  }

  /** Only the end of a run changes what is completed. */
  lemma DecideKeepsCompleted(s: State, key: Key, force: bool, shelf: Shelf)
    ensures Decide(s, key, force, shelf).completed == s.completed
  {
    hide Asked;
    hide Get;
  }

  lemma SettledIsRemembered(s: State, done: bool)
    requires s.active.Some? && Remembered(s)
    ensures Remembered(Settled(s, done))
  {
    var run := s.active.value;
    if run.token.Some? {
      PutLastFacts(s.completed, run.key, run.token.value);
      NewestFacts(PutLast(s.completed, run.key, run.token.value), COMPLETED_LIMIT);
    }
    hide DistinctKeys;
    hide Newest;
    hide PutLast;
  }

  lemma StepRemembers(s: State, a: Action)
    requires Enabled(s, a) && Remembered(s)
    ensures Remembered(Perform(s, a))
  {
    match a
    case Notify(key, force, foreground, shelf) =>
      DecideKeepsCompleted(if foreground then Foreground(s, key) else s, key, force, shelf);
      hide Decide;
    case Start =>
    case End(done, shelf) =>
      SettledIsRemembered(s, done);
      DecideKeepsCompleted(Settled(s, done), s.active.value.key, true, shelf);
      hide Decide;
      hide Settled;
    case Shut =>
  }

  lemma {:induction false} RunRemembers(s: State, actions: seq<Action>)
    requires Remembered(s) && Run(s, actions).Some?
    ensures Remembered(Run(s, actions).value)
    decreases |actions|
  {
    if actions != [] {
      StepRemembers(s, actions[0]);
      RunRemembers(Perform(s, actions[0]), actions[1..]);
    }
  }

  /** No action of the run asks for more of the book, and none pushes it out. */
  ghost predicate LeavesAlone(s: State, actions: seq<Action>, key: Key, token: Token)
    requires Run(s, actions).Some?
    decreases |actions|
  {
    actions != [] ==>
      var a := actions[0];
      !a.Shut? && !AsksAnew(a, key, token) && !PushedOut(s, a, key)
      && LeavesAlone(Perform(s, a), actions[1..], key, token)
  }

  lemma {:induction false} StaysAtRest(s: State, actions: seq<Action>, key: Key, token: Token)
    requires Inv(s) && Rests(s, key, token) && Run(s, actions).Some? && LeavesAlone(s, actions, key, token)
    ensures Rests(Run(s, actions).value, key, token)
    decreases |actions|
  {
    if actions != [] {
      StepKeepsInv(s, actions[0]);
      FinishedIsNotRepeated(s, actions[0], key, token);
      StaysAtRest(Perform(s, actions[0]), actions[1..], key, token);
    }
  }

  /**
   In every run: once the preparation of a book has ended without being left behind, the book is neither queued nor
   active for as long as nobody forces it, its frontier stays and fewer than 128 others have ended since.
   */
  lemma PreparedOnce(actions: seq<Action>, shelf: Shelf, later: seq<Action>)
    requires Run(Init(), actions).Some? && !Run(Init(), actions).value.closed
    requires var s := Run(Init(), actions).value;
             && s.active.Some? && s.active.value.token.Some? && !s.active.value.cancelled
             && var u := Finish(s, true, shelf);
                Run(u, later).Some? && LeavesAlone(u, later, s.active.value.key, s.active.value.token.value)
    ensures var s := Run(Init(), actions).value;
            var key, t := s.active.value.key, Run(Finish(s, true, shelf), later).value;
            key !in t.pending && !IsActive(t, key) && Some(key) !in t.queue
  {
    var s := Run(Init(), actions).value;
    RunKeepsInv(Init(), actions);
    RunRemembers(Init(), actions);
    FinishedRests(s, shelf, s.active.value.token.value);
    var u := Finish(s, true, shelf);
    StepKeepsInv(s, End(true, shelf));
    StaysAtRest(u, later, s.active.value.key, s.active.value.token.value);
    RunKeepsInv(u, later);
  }
}
