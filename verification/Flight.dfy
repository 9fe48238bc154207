/**
 `RecapRegistry.flight`: a registry of reference-counted per-key locks, at most `max` keys at a time.
 A transition system over any number of threads; each `with self._gate` block is one atomic step.
 */
module Flight {
  import opened Counting
  import opened Wrappers

  /** Recap keys are only ever compared. */
  type Key = nat
  type Tid = nat

  /** The next thing a thread does. `Idle` is outside the context manager. */
  datatype Pc = Idle | Checking | Acquiring | Inserting | ReturningUnused | Locking | Body | Leaving | ReturningSlot

  datatype Thread = Thread(pc: Pc, key: Key, entry: nat)

  datatype Entry = Entry(key: Key, refs: int, holder: Option<Tid>)

  datatype State = State(max: nat, free: int, registry: map<Key, nat>, entries: map<nat, Entry>, next: nat,
                         threads: map<Tid, Thread>)

  function Init(max: nat): State {
    State(max, max, map[], map[], 0, map[])
  }

  datatype Action =
    | Begin(t: Tid, key: Key) | Check(t: Tid) | Acquire(t: Tid) | Insert(t: Tid) | ReturnUnused(t: Tid)
    | Lock(t: Tid) | Unlock(t: Tid) | Leave(t: Tid) | ReturnSlot(t: Tid)

  predicate At(s: State, t: Tid, pc: Pc) {
    t in s.threads && s.threads[t].pc == pc
  }

  predicate Enabled(s: State, a: Action) {
    match a
    case Begin(t, _) => t !in s.threads || At(s, t, Idle)
    case Check(t) => At(s, t, Checking)
    case Acquire(t) => At(s, t, Acquiring) && s.free > 0
    case Insert(t) => At(s, t, Inserting)
    case ReturnUnused(t) => At(s, t, ReturningUnused)
    case Lock(t) => At(s, t, Locking) && s.threads[t].entry in s.entries && s.entries[s.threads[t].entry].holder.None?
    case Unlock(t) => At(s, t, Body) && s.threads[t].entry in s.entries
    case Leave(t) => At(s, t, Leaving) && s.threads[t].entry in s.entries
    case ReturnSlot(t) => At(s, t, ReturningSlot)
  }

  function Goto(s: State, t: Tid, pc: Pc): State
    requires t in s.threads
  {
    s.(threads := s.threads[t := s.threads[t].(pc := pc)])
  }

  /** Takes one more reference on the registered entry. */
  function Join(s: State, t: Tid, pc: Pc): State
    requires t in s.threads && s.threads[t].key in s.registry
    requires s.registry[s.threads[t].key] in s.entries
  {
    var id := s.registry[s.threads[t].key];
    var e := s.entries[id];
    s.(entries := s.entries[id := e.(refs := e.refs + 1)],
       threads := s.threads[t := s.threads[t].(pc := pc, entry := id)])
  }

  function Register(s: State, t: Tid): State
    requires t in s.threads
  {
    s.(registry := s.registry[s.threads[t].key := s.next],
       entries := s.entries[s.next := Entry(s.threads[t].key, 1, None)],
       next := s.next + 1, threads := s.threads[t := s.threads[t].(pc := Locking, entry := s.next)])
  }

  /** Drops a reference; the last one out removes the entry if it is still the registered one. */
  function Drop(s: State, t: Tid): State
    requires t in s.threads && s.threads[t].entry in s.entries
  {
    var id, key := s.threads[t].entry, s.threads[t].key;
    var e := s.entries[id].(refs := s.entries[id].refs - 1);
    var dropped := s.(entries := s.entries[id := e]);
    if e.refs == 0 && key in s.registry && s.registry[key] == id
    then Goto(dropped.(registry := s.registry - {key}), t, ReturningSlot)
    else Goto(dropped, t, Idle)
  }

  function SetHolder(s: State, t: Tid, holder: Option<Tid>): State
    requires t in s.threads && s.threads[t].entry in s.entries
  {
    s.(entries := s.entries[s.threads[t].entry := s.entries[s.threads[t].entry].(holder := holder)])
  }

  function Perform(s: State, a: Action): State
    requires Enabled(s, a) && RegistryOk(s)
  {
    match a
    case Begin(t, key) => s.(threads := s.threads[t := Thread(Checking, key, 0)])
    case Check(t) => if s.threads[t].key in s.registry then Join(s, t, Locking) else Goto(s, t, Acquiring)
    case Acquire(t) => Goto(s.(free := s.free - 1), t, Inserting)
    case Insert(t) => if s.threads[t].key in s.registry then Join(s, t, ReturningUnused) else Register(s, t)
    case ReturnUnused(t) => Goto(s.(free := s.free + 1), t, Locking)
    case Lock(t) => Goto(SetHolder(s, t, Some(t)), t, Body)
    case Unlock(t) => Goto(SetHolder(s, t, None), t, Leaving)
    case Leave(t) => Drop(s, t)
    case ReturnSlot(t) => Goto(s.(free := s.free + 1), t, Idle)
  }

  /** Each registered id is that of an entry made for its key. */
  predicate RegistryOk(s: State) {
    && (forall k :: k in s.registry ==> s.registry[k] in s.entries && s.entries[s.registry[k]].key == k)
    && (forall id :: id in s.entries ==> id < s.next)
  }

  // ---- The invariant ----

  predicate UsesEntry(pc: Pc) {
    pc.ReturningUnused? || pc.Locking? || pc.Body? || pc.Leaving?
  }

  predicate HoldsSlot(pc: Pc) {
    pc.Inserting? || pc.ReturningUnused? || pc.ReturningSlot?
  }

  function Users(s: State, key: Key): set<Tid> {
    set t | t in s.threads && UsesEntry(s.threads[t].pc) && s.threads[t].key == key
  }

  function SlotHolders(s: State): set<Tid> {
    set t | t in s.threads && HoldsSlot(s.threads[t].pc)
  }

  /** Every user of a key is on the one registered entry of that key. */
  ghost predicate Shared(s: State) {
    forall t :: t in s.threads && UsesEntry(s.threads[t].pc) ==>
      s.threads[t].key in s.registry && s.registry[s.threads[t].key] == s.threads[t].entry
  }

  /** `refs` counts the users of the key, and an entry nobody uses is gone. */
  ghost predicate Counted(s: State)
    requires RegistryOk(s)
  {
    forall k :: k in s.registry ==> s.entries[s.registry[k]].refs == |Users(s, k)| > 0
  }

  /** The lock of a registered entry is held by exactly the thread that is in the body. */
  ghost predicate Exclusive(s: State) {
    && (forall k :: k in s.registry && s.registry[k] in s.entries && s.entries[s.registry[k]].holder.Some? ==>
          HolderInBody(s, s.entries[s.registry[k]].holder.value, s.registry[k]))
    && (forall t :: At(s, t, Body) ==>
          s.threads[t].entry in s.entries && s.entries[s.threads[t].entry].holder == Some(t))
  }

  ghost predicate HolderInBody(s: State, t: Tid, id: nat) {
    At(s, t, Body) && s.threads[t].entry == id
  }

  /** No slot is lost or made: free, owned by a registered key, or in a thread's hand. */
  ghost predicate SlotsConserved(s: State) {
    s.free >= 0 && s.free + |s.registry| + |SlotHolders(s)| == s.max
  }

  ghost predicate Inv(s: State) {
    RegistryOk(s) && Shared(s) && Counted(s) && Exclusive(s) && SlotsConserved(s)
  }

  lemma InitInv(max: nat)
    ensures Inv(Init(max))
  {
    assert SlotHolders(Init(max)) == {};
  }

  // ---- Every step keeps it ----

  function Using(s: State, t: Tid, key: Key): int {
    if t in s.threads && UsesEntry(s.threads[t].pc) && s.threads[t].key == key then 1 else 0
  }

  function Holding(s: State, t: Tid): int {
    if t in s.threads && HoldsSlot(s.threads[t].pc) then 1 else 0
  }

  ghost predicate OnlyMoved(s: State, u: State, t: Tid) {
    forall x :: x != t ==> (x in u.threads <==> x in s.threads) && (x in s.threads ==> u.threads[x] == s.threads[x])
  }

  /** Moving one thread moves at most that thread in or out of a set of users. */
  lemma UsersMoved(s: State, u: State, t: Tid, key: Key)
    requires OnlyMoved(s, u, t)
    ensures |Users(u, key)| - Using(u, t, key) == |Users(s, key)| - Using(s, t, key)
  {
    SizeMoved(Users(s, key), Users(u, key), t);
  }

  lemma HoldersMoved(s: State, u: State, t: Tid)
    requires OnlyMoved(s, u, t)
    ensures |SlotHolders(u)| - Holding(u, t) == |SlotHolders(s)| - Holding(s, t)
  {
    SizeMoved(SlotHolders(s), SlotHolders(u), t);
  }

  lemma UserIsCounted(s: State, t: Tid)
    requires t in s.threads && UsesEntry(s.threads[t].pc)
    ensures |Users(s, s.threads[t].key)| >= 1
    ensures |Users(s, s.threads[t].key)| == 1 ==>
              forall x :: x in s.threads && UsesEntry(s.threads[x].pc) && s.threads[x].key == s.threads[t].key
                ==> x == t
  {
    var users := Users(s, s.threads[t].key);
    assert t in users;
    assert |users - {t}| == |users| - 1;
    forall x | x in s.threads && UsesEntry(s.threads[x].pc) && s.threads[x].key == s.threads[t].key && x != t
      ensures |users| > 1
    { assert x in users - {t}; }
  }

  lemma NobodyUses(s: State, key: Key)
    requires Shared(s) && key !in s.registry
    ensures |Users(s, key)| == 0
  {
    assert Users(s, key) == {};
  }

  /** A move of `t` between places with the same claims on entries and locks. */
  ghost predicate Quiet(s: State, u: State, t: Tid) {
    && OnlyMoved(s, u, t) && t in u.threads
    && u.registry == s.registry && u.entries == s.entries && u.next == s.next && u.max == s.max
    && u.free >= 0 && u.free + Holding(u, t) == s.free + Holding(s, t)
    && (t in s.threads && UsesEntry(s.threads[t].pc) ==>
          u.threads[t].key == s.threads[t].key && u.threads[t].entry == s.threads[t].entry)
    && (UsesEntry(u.threads[t].pc) <==> t in s.threads && UsesEntry(s.threads[t].pc))
    && !At(s, t, Body) && !At(u, t, Body)
  }

  lemma QuietStructure(s: State, u: State, t: Tid)
    requires Inv(s) && Quiet(s, u, t)
    ensures RegistryOk(u) && Shared(u) && Exclusive(u)
  {
  }

  lemma QuietCounts(s: State, u: State, t: Tid)
    requires Inv(s) && Quiet(s, u, t)
    ensures RegistryOk(u) && Counted(u)
  {
    forall k | k in u.registry ensures u.entries[u.registry[k]].refs == |Users(u, k)| > 0 { UsersMoved(s, u, t, k); }
  }

  lemma QuietSlots(s: State, u: State, t: Tid)
    requires Inv(s) && Quiet(s, u, t)
    ensures SlotsConserved(u)
  {
    HoldersMoved(s, u, t);
  }

  lemma QuietStep(s: State, u: State, t: Tid)
    requires Inv(s) && Quiet(s, u, t)
    ensures Inv(u)
  {
    QuietStructure(s, u, t);
    QuietCounts(s, u, t);
    QuietSlots(s, u, t);
  }

  lemma JoinStructure(s: State, t: Tid, pc: Pc)
    requires Inv(s) && t in s.threads && s.threads[t].key in s.registry
    requires (At(s, t, Checking) && pc == Locking) || (At(s, t, Inserting) && pc == ReturningUnused)
    ensures var u := Join(s, t, pc); RegistryOk(u) && Shared(u) && Exclusive(u)
  {
  }

  lemma JoinCounts(s: State, t: Tid, pc: Pc)
    requires Inv(s) && t in s.threads && s.threads[t].key in s.registry
    requires (At(s, t, Checking) && pc == Locking) || (At(s, t, Inserting) && pc == ReturningUnused)
    ensures var u := Join(s, t, pc); RegistryOk(u) && Counted(u)
  {
    var u := Join(s, t, pc);
    forall k | k in u.registry ensures u.entries[u.registry[k]].refs == |Users(u, k)| > 0 { UsersMoved(s, u, t, k); }
  }

  lemma JoinSlots(s: State, t: Tid, pc: Pc)
    requires Inv(s) && t in s.threads && s.threads[t].key in s.registry
    requires (At(s, t, Checking) && pc == Locking) || (At(s, t, Inserting) && pc == ReturningUnused)
    ensures var u := Join(s, t, pc); SlotsConserved(u)
  {
    var u := Join(s, t, pc);
    HoldersMoved(s, u, t);
  }

  lemma JoinStep(s: State, t: Tid, pc: Pc)
    requires Inv(s) && t in s.threads && s.threads[t].key in s.registry
    requires (At(s, t, Checking) && pc == Locking) || (At(s, t, Inserting) && pc == ReturningUnused)
    ensures Inv(Join(s, t, pc))
  {
    JoinStructure(s, t, pc);
    JoinCounts(s, t, pc);
    JoinSlots(s, t, pc);
  }

  lemma RegisterStructure(s: State, t: Tid)
    requires Inv(s) && At(s, t, Inserting) && s.threads[t].key !in s.registry
    ensures var u := Register(s, t); RegistryOk(u) && Shared(u) && Exclusive(u)
  {
  }

  lemma RegisterCounts(s: State, t: Tid)
    requires Inv(s) && At(s, t, Inserting) && s.threads[t].key !in s.registry
    ensures var u := Register(s, t); RegistryOk(u) && Counted(u)
  {
    var u := Register(s, t);
    NobodyUses(s, s.threads[t].key);
    forall k | k in u.registry ensures u.entries[u.registry[k]].refs == |Users(u, k)| > 0 { UsersMoved(s, u, t, k); }
  }

  lemma RegisterSlots(s: State, t: Tid)
    requires Inv(s) && At(s, t, Inserting) && s.threads[t].key !in s.registry
    ensures var u := Register(s, t); SlotsConserved(u)
  {
    var u := Register(s, t);
    HoldersMoved(s, u, t);
    assert u.registry.Keys == s.registry.Keys + {s.threads[t].key};
  }

  lemma RegisterStep(s: State, t: Tid)
    requires Inv(s) && At(s, t, Inserting) && s.threads[t].key !in s.registry
    ensures Inv(Register(s, t))
  {
    RegisterStructure(s, t);
    RegisterCounts(s, t);
    RegisterSlots(s, t);
  }

  lemma HolderStructure(s: State, t: Tid, holder: Option<Tid>, pc: Pc)
    requires Inv(s) && t in s.threads && UsesEntry(s.threads[t].pc) && s.threads[t].entry in s.entries
    requires (At(s, t, Locking) && s.entries[s.threads[t].entry].holder.None? && holder == Some(t) && pc == Body)
             || (At(s, t, Body) && holder.None? && pc == Leaving)
    ensures var u := Goto(SetHolder(s, t, holder), t, pc); RegistryOk(u) && Shared(u) && Exclusive(u)
  {
  }

  lemma HolderCounts(s: State, t: Tid, holder: Option<Tid>, pc: Pc)
    requires Inv(s) && t in s.threads && UsesEntry(s.threads[t].pc) && s.threads[t].entry in s.entries
    requires (At(s, t, Locking) && s.entries[s.threads[t].entry].holder.None? && holder == Some(t) && pc == Body)
             || (At(s, t, Body) && holder.None? && pc == Leaving)
    ensures var u := Goto(SetHolder(s, t, holder), t, pc); RegistryOk(u) && Counted(u)
  {
    var u := Goto(SetHolder(s, t, holder), t, pc);
    forall k | k in u.registry ensures u.entries[u.registry[k]].refs == |Users(u, k)| > 0 { UsersMoved(s, u, t, k); }
  }

  lemma HolderSlots(s: State, t: Tid, holder: Option<Tid>, pc: Pc)
    requires Inv(s) && t in s.threads && UsesEntry(s.threads[t].pc) && s.threads[t].entry in s.entries
    requires (At(s, t, Locking) && s.entries[s.threads[t].entry].holder.None? && holder == Some(t) && pc == Body)
             || (At(s, t, Body) && holder.None? && pc == Leaving)
    ensures var u := Goto(SetHolder(s, t, holder), t, pc); SlotsConserved(u)
  {
    var u := Goto(SetHolder(s, t, holder), t, pc);
    HoldersMoved(s, u, t);
  }

  lemma HolderStep(s: State, t: Tid, holder: Option<Tid>, pc: Pc)
    requires Inv(s) && t in s.threads && UsesEntry(s.threads[t].pc) && s.threads[t].entry in s.entries
    requires (At(s, t, Locking) && s.entries[s.threads[t].entry].holder.None? && holder == Some(t) && pc == Body)
             || (At(s, t, Body) && holder.None? && pc == Leaving)
    ensures Inv(Goto(SetHolder(s, t, holder), t, pc))
  {
    HolderStructure(s, t, holder, pc);
    HolderCounts(s, t, holder, pc);
    HolderSlots(s, t, holder, pc);
  }

  lemma DropStructure(s: State, t: Tid)
    requires Inv(s) && At(s, t, Leaving) && s.threads[t].entry in s.entries
    ensures var u := Drop(s, t); RegistryOk(u) && Shared(u)
  {
    UserIsCounted(s, t);
  }

  lemma DropExclusive(s: State, t: Tid)
    requires Inv(s) && At(s, t, Leaving) && s.threads[t].entry in s.entries
    ensures Exclusive(Drop(s, t))
  {
    UserIsCounted(s, t);
  }

  lemma DropCounts(s: State, t: Tid)
    requires Inv(s) && At(s, t, Leaving) && s.threads[t].entry in s.entries
    ensures var u := Drop(s, t); RegistryOk(u) && Counted(u)
  {
    var u := Drop(s, t);
    forall k | k in u.registry ensures u.entries[u.registry[k]].refs == |Users(u, k)| > 0 { UsersMoved(s, u, t, k); }
  }

  lemma DropSlots(s: State, t: Tid)
    requires Inv(s) && At(s, t, Leaving) && s.threads[t].entry in s.entries
    ensures var u := Drop(s, t); SlotsConserved(u)
  {
    var u := Drop(s, t);
    HoldersMoved(s, u, t);
    if u.registry != s.registry { assert u.registry.Keys == s.registry.Keys - {s.threads[t].key}; }
  }

  lemma DropStep(s: State, t: Tid)
    requires Inv(s) && At(s, t, Leaving) && s.threads[t].entry in s.entries
    ensures Inv(Drop(s, t))
  {
    DropStructure(s, t);
    DropExclusive(s, t);
    DropCounts(s, t);
    DropSlots(s, t);
  }

  lemma QuietCheck(s: State, t: Tid)
    requires Inv(s) && Enabled(s, Check(t)) && s.threads[t].key !in s.registry
    ensures Quiet(s, Perform(s, Check(t)), t)
  {
  }

  lemma QuietEntry(s: State, a: Action)
    requires Inv(s) && Enabled(s, a) && (a.Begin? || a.Acquire?)
    ensures Quiet(s, Perform(s, a), a.t)
  {
  }

  lemma QuietReturn(s: State, a: Action)
    requires Inv(s) && Enabled(s, a) && (a.ReturnUnused? || a.ReturnSlot?)
    ensures Quiet(s, Perform(s, a), a.t)
  {
  }

  lemma InvFacts(s: State)
    requires Inv(s)
    ensures RegistryOk(s)
    ensures forall t :: t in s.threads && UsesEntry(s.threads[t].pc) ==> s.threads[t].entry in s.entries
  {
  }

  /** Every step of every thread keeps the invariant. */
  lemma StepKeepsInv(s: State, a: Action)
    requires Inv(s) && Enabled(s, a)
    ensures Inv(Perform(s, a))
  {
    InvFacts(s);
    hide Inv;
    match a
    case Check(t) =>
      if s.threads[t].key in s.registry { JoinStep(s, t, Locking); }
      else { QuietCheck(s, t); QuietStep(s, Perform(s, a), t); }
    case Insert(t) => if s.threads[t].key in s.registry { JoinStep(s, t, ReturningUnused); }
      else { RegisterStep(s, t); }
    case Lock(t) => HolderStep(s, t, Some(t), Body);
    case Unlock(t) => HolderStep(s, t, None, Leaving);
    case Leave(t) => DropStep(s, t);
    case ReturnUnused(t) => QuietReturn(s, a); QuietStep(s, Perform(s, a), t);
    case ReturnSlot(t) => QuietReturn(s, a); QuietStep(s, Perform(s, a), t);
    case _ => QuietEntry(s, a); QuietStep(s, Perform(s, a), a.t);
  }

  // ---- All interleavings ----

  /** The state after the actions, if each was enabled when its turn came. */
  function Run(s: State, actions: seq<Action>): Option<State>
    decreases |actions|
  {
    if actions == [] then Some(s)
    else if Enabled(s, actions[0]) && RegistryOk(s) then Run(Perform(s, actions[0]), actions[1..])
    else None
  }

  lemma {:induction false} RunKeepsInv(s: State, actions: seq<Action>)
    requires Inv(s) && Run(s, actions).Some?
    ensures Inv(Run(s, actions).value)
    ensures Run(s, actions).value.max == s.max
    decreases |actions|
  {
    if actions != [] {
      StepKeepsInv(s, actions[0]);
      RunKeepsInv(Perform(s, actions[0]), actions[1..]);
    }
  }

  /**
   Every interleaving of any number of threads and keys: slots are conserved, all users of a key share one
   entry that counts them, at most one of them is in the body, and the semaphore is never over-released.
   */
  lemma FlightSafety(max: nat, actions: seq<Action>)
    requires Run(Init(max), actions).Some?
    ensures var s := Run(Init(max), actions).value;
            && 0 <= s.free && s.free + |s.registry| + |SlotHolders(s)| == max
            && (forall t :: t in s.threads && UsesEntry(s.threads[t].pc) ==>
                  s.threads[t].key in s.registry && s.threads[t].entry == s.registry[s.threads[t].key]
                  && s.threads[t].entry in s.entries
                  && s.entries[s.threads[t].entry].refs == |Users(s, s.threads[t].key)|)
            && (forall t, x :: At(s, t, Body) && At(s, x, Body) && s.threads[t].key == s.threads[x].key ==> t == x)
            && (forall t :: At(s, t, ReturningUnused) || At(s, t, ReturningSlot) ==> s.free < max)
  {
    InitInv(max);
    RunKeepsInv(Init(max), actions);
    var s := Run(Init(max), actions).value;
    forall t | At(s, t, ReturningUnused) || At(s, t, ReturningSlot) ensures s.free < max {
      assert t in SlotHolders(s);
    }
  }

  /** A user of a key can itself move, or the holder of the key's lock can. */
  lemma UserOrHolderMoves(s: State, t: Tid)
    requires Inv(s) && t in s.threads && UsesEntry(s.threads[t].pc)
    ensures exists a: Action :: !a.Begin? && Enabled(s, a)
  {
    var id := s.threads[t].entry;
    match s.threads[t].pc
    case ReturningUnused => assert Enabled(s, ReturnUnused(t));
    case Body => assert Enabled(s, Unlock(t));
    case Leaving => assert Enabled(s, Leave(t));
    case Locking =>
      if s.entries[id].holder.None? { assert Enabled(s, Lock(t)); }
      else {
        assert HolderInBody(s, s.entries[id].holder.value, s.registry[s.threads[t].key]);
        assert Enabled(s, Unlock(s.entries[id].holder.value));
      }
  }

  /** No deadlock: while a thread is inside, some step other than a new call is enabled. */
  lemma FlightProgress(s: State, t: Tid)
    requires Inv(s) && s.max >= 1
    requires t in s.threads && !s.threads[t].pc.Idle?
    ensures exists a: Action :: !a.Begin? && Enabled(s, a)
  {
    match s.threads[t].pc
    case Checking => assert Enabled(s, Check(t));
    case Inserting => assert Enabled(s, Insert(t));
    case ReturningSlot => assert Enabled(s, ReturnSlot(t));
    case Acquiring =>
      if s.free > 0 { assert Enabled(s, Acquire(t)); }
      else if SlotHolders(s) != {} {
        var x :| x in SlotHolders(s);
        assert Enabled(s, if At(s, x, Inserting) then Insert(x) else if At(s, x, ReturningUnused) then ReturnUnused(x)
                       else ReturnSlot(x));
      } else {
        assert |s.registry| > 0;
        var k :| k in s.registry;
        assert |Users(s, k)| > 0;
        var x :| x in Users(s, k);
        UserOrHolderMoves(s, x);
      }
    case _ => UserOrHolderMoves(s, t);
  }

  // ---- What holds a thread up, and what its step does ----

  /** The keys that some thread has joined or registered and not left. */
  function KeysInUse(s: State): set<Key> {
    set t | t in s.threads && UsesEntry(s.threads[t].pc) :: s.threads[t].key
  }

  lemma RegisteredIsInUse(s: State)
    requires Inv(s)
    ensures s.registry.Keys == KeysInUse(s) && |s.registry| == |KeysInUse(s)|
  {
    forall k | k in s.registry ensures k in KeysInUse(s) {
      assert |Users(s, k)| > 0;
      var t :| t in Users(s, k);
    }
    assert |s.registry| == |s.registry.Keys|;
  }

  /** A new key waits for a free slot, a known one for its own body; nothing else holds a thread up. */
  ghost predicate HeldUpOnlyBy(s: State, t: Tid)
    requires t in s.threads
  {
    match s.threads[t].pc
    case Idle => forall key :: Enabled(s, Begin(t, key))
    case Checking => Enabled(s, Check(t))
    case Acquiring => Enabled(s, Acquire(t)) <==> |KeysInUse(s)| + |SlotHolders(s)| < s.max
    case Inserting => Enabled(s, Insert(t))
    case ReturningUnused => Enabled(s, ReturnUnused(t))
    case Locking => Enabled(s, Lock(t)) <==> !exists x :: At(s, x, Body) && s.threads[x].key == s.threads[t].key
    case Body => Enabled(s, Unlock(t))
    case Leaving => Enabled(s, Leave(t))
    case ReturningSlot => Enabled(s, ReturnSlot(t))
  }

  lemma HeldUpExactly(s: State, t: Tid)
    requires Inv(s) && t in s.threads
    ensures HeldUpOnlyBy(s, t)
  {
    RegisteredIsInUse(s);
    InvFacts(s);
    if s.threads[t].pc.Locking? {
      var key := s.threads[t].key;
      var e := s.entries[s.threads[t].entry];
      if e.holder.Some? {
        assert HolderInBody(s, e.holder.value, s.registry[key]);
        BodyOfEntry(s, e.holder.value);
      }
      forall x | At(s, x, Body) && s.threads[x].key == key ensures e.holder == Some(x) { BodyOfEntry(s, x); }
    }
  }

  lemma BodyOfEntry(s: State, x: Tid)
    requires Inv(s) && At(s, x, Body)
    ensures var key := s.threads[x].key;
            && key in s.registry && s.registry[key] == s.threads[x].entry && s.threads[x].entry in s.entries
            && s.entries[s.threads[x].entry].key == key && s.entries[s.threads[x].entry].holder == Some(x)
  {
  }

  ghost predicate SharesKey(s: State, t: Tid) {
    exists x :: x != t && x in s.threads && t in s.threads && UsesEntry(s.threads[x].pc)
                && s.threads[x].key == s.threads[t].key
  }

  /** Where a thread's own step takes it. */
  ghost predicate Arrives(s: State, a: Action, pc: Pc) {
    match a
    case Begin(_, _) => pc.Checking?
    case Check(t) => if SharesKey(s, t) then pc.Locking? else pc.Acquiring?
    case Acquire(_) => pc.Inserting?
    case Insert(t) => if SharesKey(s, t) then pc.ReturningUnused? else pc.Locking?
    case ReturnUnused(_) => pc.Locking?
    case Lock(_) => pc.Body?
    case Unlock(_) => pc.Leaving?
    case Leave(t) => if SharesKey(s, t) then pc.Idle? else pc.ReturningSlot?
    case ReturnSlot(_) => pc.Idle?
  }

  lemma SharesExactly(s: State, t: Tid)
    requires Inv(s) && t in s.threads
    ensures !UsesEntry(s.threads[t].pc) ==> (s.threads[t].key in s.registry <==> SharesKey(s, t))
    ensures s.threads[t].pc.Leaving? ==>
              && s.threads[t].entry in s.entries
              && s.threads[t].key in s.registry && s.registry[s.threads[t].key] == s.threads[t].entry
              && s.entries[s.threads[t].entry].refs >= 1
              && (s.entries[s.threads[t].entry].refs > 1 <==> SharesKey(s, t))
  {
    var key := s.threads[t].key;
    RegisteredIsInUse(s);
    InvFacts(s);
    var users := Users(s, key);
    if s.threads[t].pc.Leaving? {
      assert t in users;
      assert |users - {t}| == |users| - 1;
      if |users| > 1 {
        var x :| x in users - {t};
        assert SharesKey(s, t);
      }
      if SharesKey(s, t) {
        var x :| x != t && x in s.threads && UsesEntry(s.threads[x].pc) && s.threads[x].key == key;
        assert x in users - {t};
      }
    } else if key in s.registry {
      var x :| x in s.threads && UsesEntry(s.threads[x].pc) && s.threads[x].key == key;
    }
  }

  lemma InUseIsRegistered(s: State, t: Tid)
    requires RegistryOk(s) && t in s.threads
    ensures s.threads[t].key in s.registry ==> s.registry[s.threads[t].key] in s.entries
  {
  }

  /** Where a step takes its thread when that depends on who shares its key. */
  lemma KeyStepArrives(s: State, a: Action)
    requires Inv(s) && Enabled(s, a) && (a.Check? || a.Insert? || a.Leave?)
    ensures RegistryOk(s)
    ensures var pc := if a.Check? then if SharesKey(s, a.t) then Locking else Acquiring
                      else if a.Insert? then if SharesKey(s, a.t) then ReturningUnused else Locking
                      else if SharesKey(s, a.t) then Idle else ReturningSlot;
            Went(s, Perform(s, a), a.t, s.threads[a.t].key, pc)
  {
    InvFacts(s);
    SharesExactly(s, a.t);
    InUseIsRegistered(s, a.t);
    hide Went;
    hide Inv;
    hide SharesKey;
    match a
    case Check(t) =>
      GotoArrives(s, s, t, Acquiring);
      if s.threads[t].key in s.registry { JoinArrives(s, t, Locking); }
    case Insert(t) =>
      RegisterArrives(s, t);
      if s.threads[t].key in s.registry { JoinArrives(s, t, ReturningUnused); }
    case Leave(t) => LeaveArrives(s, t);
  }

  lemma PlainStepArrives(s: State, a: Action)
    requires RegistryOk(s) && Enabled(s, a) && !a.Begin? && !a.Check? && !a.Insert? && !a.Leave?
    ensures var pc := if a.Acquire? then Inserting else if a.ReturnUnused? then Locking
                      else if a.Lock? then Body else if a.Unlock? then Leaving else Idle;
            Went(s, Perform(s, a), a.t, s.threads[a.t].key, pc)
  {
    hide Went;
    hide RegistryOk;
    match a
    case Acquire(t) => GotoArrives(s, s.(free := s.free - 1), t, Inserting);
    case ReturnUnused(t) => GotoArrives(s, s.(free := s.free + 1), t, Locking);
    case Lock(t) => GotoArrives(s, SetHolder(s, t, Some(t)), t, Body);
    case Unlock(t) => GotoArrives(s, SetHolder(s, t, None), t, Leaving);
    case ReturnSlot(t) => GotoArrives(s, s.(free := s.free + 1), t, Idle);
  }

  lemma StepArrives(s: State, a: Action)
    requires Inv(s) && Enabled(s, a)
    ensures RegistryOk(s)
    ensures var u := Perform(s, a);
            && OnlyMoved(s, u, a.t) && a.t in u.threads && Arrives(s, a, u.threads[a.t].pc)
            && u.threads[a.t].key == if a.Begin? then a.key else s.threads[a.t].key
  {
    InvFacts(s);
    if a.Begin? { BeginArrives(s, a.t, a.key); }
    else if a.Check? || a.Insert? || a.Leave? { KeyStepArrives(s, a); }
    else { PlainStepArrives(s, a); }
    hide OnlyMoved;
    hide SharesKey;
    hide RegistryOk;
    hide Inv;
    hide Enabled;
    if !a.Begin? { hide Perform; }
  }

  /** The thread is where it went, and no other has moved. */
  ghost predicate Went(s: State, u: State, t: Tid, key: Key, pc: Pc) {
    OnlyMoved(s, u, t) && t in u.threads && u.threads[t].key == key && u.threads[t].pc == pc
  }

  lemma GotoArrives(s: State, m: State, t: Tid, pc: Pc)
    requires t in s.threads && m.threads == s.threads
    ensures Went(s, Goto(m, t, pc), t, s.threads[t].key, pc)
  {
  }

  lemma BeginArrives(s: State, t: Tid, key: Key)
    ensures Went(s, s.(threads := s.threads[t := Thread(Checking, key, 0)]), t, key, Checking)
  {
  }

  lemma JoinArrives(s: State, t: Tid, pc: Pc)
    requires t in s.threads && s.threads[t].key in s.registry && s.registry[s.threads[t].key] in s.entries
    ensures Went(s, Join(s, t, pc), t, s.threads[t].key, pc)
  {
  }

  lemma RegisterArrives(s: State, t: Tid)
    requires t in s.threads
    ensures Went(s, Register(s, t), t, s.threads[t].key, Locking)
  {
  }

  lemma LeaveArrives(s: State, t: Tid)
    requires t in s.threads && s.threads[t].entry in s.entries
    requires s.threads[t].key in s.registry && s.registry[s.threads[t].key] == s.threads[t].entry
    requires s.entries[s.threads[t].entry].refs >= 1
    ensures Went(s, Drop(s, t), t, s.threads[t].key,
                 if s.entries[s.threads[t].entry].refs > 1 then Idle else ReturningSlot)
  {
  }

  /**
   In every reachable state: a thread waits for a slot only while all are taken, and for the lock only while another
   thread of its key is in the body; every other step can be taken at once, and moves nobody else.
   */
  lemma KeysRunSideBySide(max: nat, actions: seq<Action>, a: Action)
    requires Run(Init(max), actions).Some?
    ensures var s := Run(Init(max), actions).value;
            && (forall t :: t in s.threads ==> HeldUpOnlyBy(s, t)) && RegistryOk(s) && s.max == max
            && (Enabled(s, a) ==>
                  OnlyMoved(s, Perform(s, a), a.t) && a.t in Perform(s, a).threads
                  && Arrives(s, a, Perform(s, a).threads[a.t].pc))
  {
    InitInv(max);
    RunKeepsInv(Init(max), actions);
    var s := Run(Init(max), actions).value;
    InvFacts(s);
    forall t | t in s.threads ensures HeldUpOnlyBy(s, t) { HeldUpExactly(s, t); }
    if Enabled(s, a) { StepArrives(s, a); }
  }
}
