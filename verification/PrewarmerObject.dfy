/** `RecapPrewarmer` as the object whose methods update its fields, proved to take the steps of `Prewarmer`. */
module PrewarmerObject {
  import opened Wrappers
  import opened OrderedDict
  import opened Prewarmer

  class RecapPrewarmer {
    var queue: seq<Option<Key>>
    var pending: map<Key, Token>
    var completed: seq<Item<Key, Token>>
    var focus: Option<Key>
    var active: Option<Active>
    var closed: bool
    var stopped: bool
    var unfinished: int

    function Snapshot(): State
      reads this
    {
      State(queue, pending, completed, focus, active, closed, stopped, unfinished)
    }

    constructor ()
      ensures Snapshot() == Init()
    {
      queue, pending, completed, focus := [], map[], [], None;
      active, closed, stopped, unfinished := None, false, false, 0;
    }

    method CancelActive()
      modifies this`active
      ensures Snapshot() == Cancel(old(Snapshot()))
    {
      if active.Some? { active := Some(active.value.(cancelled := true)); }
    }

    method Drain() returns (held: seq<Option<Key>>)
      modifies this`queue
      ensures held == old(queue) && queue == []
    {
      held := [];
      while queue != []
        invariant held + queue == old(queue)
        decreases |queue|
      {
        held := held + [queue[0]];
        queue := queue[1..];
      }
    }

    /** Returns how many tasks were drained; counting them as done is left to the caller. */
    method FocusQueue(key: Key) returns (drained: nat)
      modifies this
      ensures Snapshot() == Focused(old(Snapshot()), key) && drained == |old(queue)|
    {
      var held := Drain();
      ghost var act := ActiveKey(old(Snapshot()));
      var i := 0;
      while i < |held|
        invariant 0 <= i <= |held|
        invariant queue == Kept(held, key, i) && pending == Forgotten(old(pending), held, Some(key), act, i)
        invariant unfinished == old(unfinished) + |queue| && active == old(active)
        invariant unchanged(`completed) && unchanged(`focus) && unchanged(`closed) && unchanged(`stopped)
      {
        if held[i] == Some(key) {
          queue := queue + [held[i]];
          unfinished := unfinished + 1;
        } else if held[i].Some? && !(active.Some? && held[i] == Some(active.value.key)) {
          pending := pending - {held[i].value};
        }
        i := i + 1;
      }
      drained := |held|;
    }

    /** The part of `_schedule` that consults the catalog and the book's earlier tokens. */
    method Consider(key: Key, force: bool, shelf: Shelf)
      modifies this
      ensures Snapshot() == Decide(old(Snapshot()), key, force, shelf)
    {
      hide ForActive;
      hide Enqueue;
      if focus.Some? && key != focus.value { return; }
      if shelf.Missing? || shelf.bookmark <= 0 || shelf.progress < shelf.bookmark {
        if active.Some? && active.value.key == key { CancelActive(); }
        return;
      }
      var prior := if key in pending then Some(pending[key]) else Get(completed, key);
      var token := Token(shelf.epoch, shelf.bookmark, if force && prior.Some? then prior.value.turn + 1 else 0);
      if !force && prior.Some? && SameBase(prior.value, shelf) { token := prior.value; }
      token := Confront(key, token);
      if !force && Get(completed, key) == Some(token) { return; }
      Put(key, token);
    }

    /** Compares the token asked for with the active run of the same book. */
    method Confront(key: Key, asked: Token) returns (token: Token)
      modifies this`active
      ensures (Snapshot(), token) == ForActive(old(Snapshot()), key, asked)
    {
      token := asked;
      if active.Some? && active.value.key == key {
        if active.value.token != Some(asked) { CancelActive(); }
        else if active.value.cancelled { token := asked.(turn := asked.turn + 1); }
      }
    }

    method Put(key: Key, token: Token)
      modifies this
      ensures Snapshot() == Enqueue(old(Snapshot()), key, token)
    {
      if key in pending {
        pending := pending[key := token];
      } else if |queue| < CAPACITY {
        pending := pending[key := token];
        queue := queue + [Some(key)];
        unfinished := unfinished + 1;
      }
    }

    method ScheduleNow(key: Key, force: bool, foreground: bool, shelf: Shelf)
      modifies this
      ensures Snapshot() == Schedule(old(Snapshot()), key, force, foreground, shelf)
    {
      hide Decide;
      hide Focused;
      if closed { return; }
      var drained := 0;
      if foreground {
        focus := Some(key);
        if active.Some? && active.value.key != key { CancelActive(); }
        drained := FocusQueue(key);
      }
      Consider(key, force, shelf);
      unfinished := unfinished - drained;
    }

    /** The runner's step up to its first await. */
    method TakeNext()
      requires queue != [] && active.None? && !stopped
      modifies this
      ensures Snapshot() == Take(old(Snapshot()))
    {
      var head := queue[0];
      queue := queue[1..];
      if head.None? {
        unfinished := unfinished - 1;
        stopped := true;
        return;
      }
      active := Some(Active(head.value, if head.value in pending then Some(pending[head.value]) else None, false));
    }

    /** Clears the active run and remembers what it completed. */
    method SettleRun(done: bool)
      requires active.Some?
      modifies this
      ensures Snapshot() == Settled(old(Snapshot()), done)
    {
      var run := active.value;
      pending := pending - {run.key};
      active := None;
      if done && !run.cancelled && run.token.Some? {
        completed := Trim(PutLast(completed, run.key, run.token.value), COMPLETED_LIMIT);
      }
    }

    /** The runner's `finally` block. */
    method EndRun(done: bool, shelf: Shelf)
      requires active.Some?
      modifies this
      ensures Snapshot() == Finish(old(Snapshot()), done, shelf)
    {
      hide Schedule;
      hide Settled;
      var run := active.value;
      var latest := if run.key in pending then Some(pending[run.key]) else None;
      var open := !closed;
      SettleRun(done);
      if latest.Some? && latest != run.token && open { ScheduleNow(run.key, true, false, shelf); }
      unfinished := unfinished - 1;
    }

    method Shutdown()
      modifies this
      ensures Snapshot() == Close(old(Snapshot()))
    {
      closed := true;
      CancelActive();
      ghost var act := ActiveKey(old(Snapshot()));
      ghost var i := 0;
      while queue != []
        invariant 0 <= i <= |old(queue)| && queue == old(queue)[i..]
        invariant pending == Forgotten(old(pending), old(queue), None, act, i) && unfinished == old(unfinished) - i
        invariant Snapshot() == Cancel(old(Snapshot())).(closed := true, queue := queue, pending := pending,
                                                         unfinished := unfinished)
        decreases |queue|
      {
        var head := queue[0];
        queue := queue[1..];
        if head.Some? && !(active.Some? && head == Some(active.value.key)) { pending := pending - {head.value}; }
        unfinished := unfinished - 1;
        i := i + 1;
      }
      queue := [None];
      unfinished := unfinished + 1;
    }
  }
}
