/**
 The miss path of `catch_me_up` over the flight protocol: how often a recap synthesis is paid for.
 Any interleaving of requests, cache traffic, invalidation and the clock.
 */
module SinglePayment {
  import opened Wrappers
  import opened OrderedDict
  import opened RecapRegistry
  import F = Flight

  /** Where a thread in the body of its flight is. `Paying` is the synthesis round. */
  datatype Phase = Rechecking | CheckingFailure | Paying | Committing | Finished

  /** A cached payload is known by its `as_of_chapter`; `frontier` is the one a request of a key expects. */
  datatype State = State(flight: F.State, phase: map<F.Tid, Phase>, cache: seq<Item<F.Key, int>>,
                         failed: seq<Item<F.Key, real>>, now: real)

  datatype Setting = Setting(frontier: F.Key -> int, ttl: real, maxEntries: nat, maxFailures: nat)

  datatype Action =
    | Protocol(a: F.Action)            // a step of the flight protocol
    | Tick(passed: real)               // time passes
    | Peek(key: F.Key)                 // a lookup outside the flight
    | PeekFailure(key: F.Key)
    | Invalidate(keep: F.Key -> bool)
    | Recheck(t: F.Tid)
    | CheckFailure(t: F.Tid)
    | Clear(t: F.Tid)                  // the round cleared a recap
    | Commit(t: F.Tid)
    | Reject(t: F.Tid)                 // both attempts were rejected

  predicate In(s: State, t: F.Tid, phase: Phase) {
    F.At(s.flight, t, F.Body) && t in s.phase && s.phase[t] == phase
  }

  function KeyOf(s: State, t: F.Tid): F.Key
    requires t in s.flight.threads
  {
    s.flight.threads[t].key
  }

  predicate Hit(cfg: Setting, s: State, key: F.Key) {
    Get(s.cache, key) == Some(cfg.frontier(key))
  }

  predicate Enabled(s: State, a: Action) {
    match a
    case Protocol(b) => F.Enabled(s.flight, b) && F.RegistryOk(s.flight)
    case Tick(passed) => passed >= 0.0
    case Peek(_) => true
    case PeekFailure(_) => true
    case Invalidate(_) => true
    case Recheck(t) => In(s, t, Rechecking)
    case CheckFailure(t) => In(s, t, CheckingFailure)
    case Clear(t) => In(s, t, Paying)
    case Commit(t) => In(s, t, Committing)
    case Reject(t) => In(s, t, Paying)
  }

  function Move(s: State, t: F.Tid, phase: Phase): State {
    s.(phase := s.phase[t := phase])
  }

  /** Leaving the body is possible from every phase: a return, or any error raised on the way. */
  function Perform(cfg: Setting, s: State, a: Action): State
    requires Enabled(s, a)
  {
    match a
    case Protocol(b) =>
      var next := s.(flight := F.Perform(s.flight, b));
      if b.Lock? then Move(next, b.t, Rechecking) else next
    case Tick(passed) => s.(now := s.now + passed)
    case Peek(key) => s.(cache := Touch(s.cache, key))
    case PeekFailure(key) => s.(failed := AfterRecent(s.failed, key, cfg.ttl, s.now))
    case Invalidate(keep) => s.(cache := Keep(s.cache, keep), failed := Keep(s.failed, keep))
    case Recheck(t) =>
      var seen := s.(cache := Touch(s.cache, KeyOf(s, t)));
      Move(seen, t, if Hit(cfg, s, KeyOf(s, t)) then Finished else CheckingFailure)
    case CheckFailure(t) =>
      var seen := s.(failed := AfterRecent(s.failed, KeyOf(s, t), cfg.ttl, s.now));
      Move(seen, t, if Recent(s.failed, KeyOf(s, t), cfg.ttl, s.now) then Finished else Paying)
    case Clear(t) => Move(s.(failed := Without(s.failed, KeyOf(s, t))), t, Committing)
    case Commit(t) =>
      Move(s.(cache := Stored(s.cache, KeyOf(s, t), cfg.frontier(KeyOf(s, t)), cfg.maxEntries)), t, Finished)
    case Reject(t) => Move(s.(failed := Stored(s.failed, KeyOf(s, t), s.now, cfg.maxFailures)), t, Finished)
  }

  // ---- The invariant ----

  /** Past the recheck of the cache, and not yet committed. */
  predicate Past(s: State, t: F.Tid) {
    In(s, t, CheckingFailure) || In(s, t, Paying) || In(s, t, Committing)
  }

  /** In a synthesis round, or between clearing and committing its result. */
  predicate InRound(s: State, t: F.Tid) {
    In(s, t, Paying) || In(s, t, Committing)
  }

  ghost predicate MissKept(cfg: Setting, s: State) {
    forall t :: Past(s, t) ==> !Hit(cfg, s, KeyOf(s, t))
  }

  ghost predicate NoRecentFailure(cfg: Setting, s: State) {
    forall t :: InRound(s, t) ==> !Recent(s.failed, KeyOf(s, t), cfg.ttl, s.now)
  }

  ghost predicate Inv(cfg: Setting, s: State) {
    F.Inv(s.flight) && DistinctKeys(s.cache) && DistinctKeys(s.failed) && MissKept(cfg, s) && NoRecentFailure(cfg, s)
  }

  function Init(max: nat, cache: seq<Item<F.Key, int>>, now: real): State {
    State(F.Init(max), map[], cache, [], now)
  }

  lemma OneInBody(s: F.State, t: F.Tid, x: F.Tid)
    requires F.Inv(s) && F.At(s, t, F.Body) && F.At(s, x, F.Body) && s.threads[t].key == s.threads[x].key
    ensures t == x
  {
  }

  // ---- How lookups of one key change ----

  lemma TouchKeepsGet<V(!new)>(d: seq<Item<F.Key, V>>, k: F.Key, j: F.Key)
    requires DistinctKeys(d)
    ensures DistinctKeys(Touch(d, k)) && Get(Touch(d, k), j) == Get(d, j)
  {
    var t := Touch(d, k);
    TouchFacts(d, k);
    hide *;
    if Get(d, j).Some? {
      GetIsMember(d, j, Get(d, j).value);
      GetIsMember(t, j, Get(d, j).value);
    }
    if Get(t, j).Some? {
      GetIsMember(t, j, Get(t, j).value);
      GetIsMember(d, j, Get(t, j).value);
    }
  }

  /** Nothing is found that was not there before, another key's new value aside. */
  lemma FewerGets<V(!new)>(d: seq<Item<F.Key, V>>, e: seq<Item<F.Key, V>>, j: F.Key)
    requires DistinctKeys(d) && DistinctKeys(e)
    requires forall x :: x in e && x.key == j ==> x in d
    ensures Get(e, j).Some? ==> Get(e, j) == Get(d, j)
  {
    if Get(e, j).Some? {
      GetIsMember(e, j, Get(e, j).value);
      GetIsMember(d, j, Get(e, j).value);
    }
  }

  lemma StoredKeepsOthers<V(!new)>(d: seq<Item<F.Key, V>>, k: F.Key, v: V, limit: nat, j: F.Key)
    requires DistinctKeys(d)
    ensures DistinctKeys(Stored(d, k, v, limit))
    ensures j != k && Get(Stored(d, k, v, limit), j).Some? ==> Get(Stored(d, k, v, limit), j) == Get(d, j)
  {
    PutLastFacts(d, k, v);
    NewestFacts(PutLast(d, k, v), limit);
    if j != k { FewerGets(d, Stored(d, k, v, limit), j); }
  }

  lemma WithoutKeepsOthers<V(!new)>(d: seq<Item<F.Key, V>>, k: F.Key, j: F.Key)
    requires DistinctKeys(d)
    ensures DistinctKeys(Without(d, k)) && Get(Without(d, k), k).None?
    ensures Get(Without(d, k), j).Some? ==> Get(Without(d, k), j) == Get(d, j)
  {
    WithoutFacts(d, k);
    FewerGets(d, Without(d, k), j);
    if Get(Without(d, k), k).Some? { GetIsMember(Without(d, k), k, Get(Without(d, k), k).value); }
  }

  lemma RecentKeepsOthers(d: seq<Item<F.Key, real>>, k: F.Key, ttl: real, now: real, j: F.Key)
    requires DistinctKeys(d)
    ensures DistinctKeys(AfterRecent(d, k, ttl, now))
    ensures Get(AfterRecent(d, k, ttl, now), j).Some? ==> Get(AfterRecent(d, k, ttl, now), j) == Get(d, j)
  {
    TouchKeepsGet(d, k, j);
    WithoutKeepsOthers(d, k, j);
  }

  lemma KeepKeepsOthers<V(!new)>(d: seq<Item<F.Key, V>>, keep: F.Key -> bool, j: F.Key)
    requires DistinctKeys(d)
    ensures DistinctKeys(Keep(d, keep))
    ensures Get(Keep(d, keep), j).Some? ==> Get(Keep(d, keep), j) == Get(d, j)
  {
    KeepDistinct(d, keep);
    FewerGets(d, Keep(d, keep), j);
  }

  // ---- Every step keeps it ----

  /** A thread other than `t` that was waiting for nothing else keeps its place. */
  ghost predicate OthersStay(s: State, u: State, t: F.Tid) {
    u.flight == s.flight && forall x ::
      x != t ==> (x in u.phase <==> x in s.phase) && (x in s.phase ==> u.phase[x] == s.phase[x])
  }

  ghost predicate CacheFades(s: State, u: State, except: Option<F.Key>) {
    DistinctKeys(u.cache) && forall j: F.Key ::
      Some(j) != except && Get(u.cache, j).Some? ==> Get(u.cache, j) == Get(s.cache, j)
  }

  ghost predicate FailuresFade(s: State, u: State, except: Option<F.Key>) {
    DistinctKeys(u.failed) && forall j: F.Key ::
      Some(j) != except && Get(u.failed, j).Some? ==> Get(u.failed, j) == Get(s.failed, j)
  }

  /** The rest of a step: the other threads' keys are not the mover's when the mover is in a body of its key. */
  lemma MissStays(cfg: Setting, s: State, u: State, t: F.Tid, except: Option<F.Key>)
    requires Inv(cfg, s) && OthersStay(s, u, t) && CacheFades(s, u, except)
    requires except.Some? ==> F.At(s.flight, t, F.Body) && KeyOf(s, t) == except.value
    requires Past(u, t) ==> !Hit(cfg, u, KeyOf(u, t))
    ensures MissKept(cfg, u)
  {
    hide F.Inv;
    forall x | Past(u, x) ensures !Hit(cfg, u, KeyOf(u, x)) {
      if x != t {
        assert Past(s, x);
        if except == Some(KeyOf(s, x)) { OneInBody(s.flight, x, t); }
      }
    }
  }

  lemma FailuresStay(cfg: Setting, s: State, u: State, t: F.Tid, except: Option<F.Key>)
    requires Inv(cfg, s) && OthersStay(s, u, t) && FailuresFade(s, u, except) && u.now >= s.now
    requires except.Some? ==> F.At(s.flight, t, F.Body) && KeyOf(s, t) == except.value
    requires InRound(u, t) ==> !Recent(u.failed, KeyOf(u, t), cfg.ttl, u.now)
    ensures NoRecentFailure(cfg, u)
  {
    hide F.Inv;
    forall x | InRound(u, x) ensures !Recent(u.failed, KeyOf(u, x), cfg.ttl, u.now) {
      if x != t {
        assert InRound(s, x);
        if except == Some(KeyOf(s, x)) { OneInBody(s.flight, x, t); }
      }
    }
  }

  /** Steps outside any body: the caches lose entries or reorder them, and time moves on. */
  lemma FadingStep(cfg: Setting, s: State, u: State)
    requires Inv(cfg, s) && u.flight == s.flight && u.phase == s.phase && u.now >= s.now
    requires CacheFades(s, u, None) && FailuresFade(s, u, None)
    ensures Inv(cfg, u)
  {
    hide F.Inv;
    forall x | Past(u, x) ensures !Hit(cfg, u, KeyOf(u, x)) { assert Past(s, x); }
    forall x | InRound(u, x) ensures !Recent(u.failed, KeyOf(u, x), cfg.ttl, u.now) { assert InRound(s, x); }
  }

  lemma ProtocolStep(cfg: Setting, s: State, b: F.Action)
    requires Inv(cfg, s) && Enabled(s, Protocol(b))
    ensures Inv(cfg, Perform(cfg, s, Protocol(b)))
  {
    F.StepKeepsInv(s.flight, b);
    BodyOnlyByLock(s.flight, b);
    EnteringStep(cfg, s, F.Perform(s.flight, b), if b.Lock? then Some(b.t) else None);
  }

  /** A thread that enters the body starts at the recheck. */
  lemma EnteringStep(cfg: Setting, s: State, flight: F.State, enters: Option<F.Tid>)
    requires Inv(cfg, s) && F.Inv(flight)
    requires forall t :: F.At(flight, t, F.Body) && Some(t) != enters ==>
               F.At(s.flight, t, F.Body) && flight.threads[t].key == s.flight.threads[t].key
    ensures var next := s.(flight := flight);
            Inv(cfg, if enters.Some? then Move(next, enters.value, Rechecking) else next)
  {
    hide F.Inv;
    var next := s.(flight := flight);
    var u := if enters.Some? then Move(next, enters.value, Rechecking) else next;
    forall x | Past(u, x) ensures !Hit(cfg, u, KeyOf(u, x)) { assert Past(s, x); }
    forall x | InRound(u, x) ensures !Recent(u.failed, KeyOf(u, x), cfg.ttl, u.now) { assert InRound(s, x); }
  }

  /** A thread in the body entered it by taking the lock, and keeps its key there. */
  lemma BodyOnlyByLock(s: F.State, b: F.Action)
    requires F.RegistryOk(s) && F.Enabled(s, b)
    ensures forall t :: F.At(F.Perform(s, b), t, F.Body) && Some(t) != (if b.Lock? then Some(b.t) else None) ==>
              F.At(s, t, F.Body) && F.Perform(s, b).threads[t].key == s.threads[t].key
  {
  }

  /** The mover finds a miss and goes on, or leaves with the hit. */
  lemma RecheckStep(cfg: Setting, s: State, t: F.Tid)
    requires Inv(cfg, s) && Enabled(s, Recheck(t))
    ensures Inv(cfg, Perform(cfg, s, Recheck(t)))
  {
    hide F.Inv;
    hide Touch;
    hide Get;
    hide DistinctKeys;
    var u, k := Perform(cfg, s, Recheck(t)), KeyOf(s, t);
    forall j { TouchKeepsGet(s.cache, k, j); }
    MissStays(cfg, s, u, t, None);
    FailuresStay(cfg, s, u, t, None);
  }

  lemma CheckFailureStep(cfg: Setting, s: State, t: F.Tid)
    requires Inv(cfg, s) && Enabled(s, CheckFailure(t))
    ensures Inv(cfg, Perform(cfg, s, CheckFailure(t)))
  {
    hide F.Inv;
    var u, k := Perform(cfg, s, CheckFailure(t)), KeyOf(s, t);
    forall j { RecentKeepsOthers(s.failed, k, cfg.ttl, s.now, j); }
    assert Past(s, t);
    MissStays(cfg, s, u, t, None);
    FailuresStay(cfg, s, u, t, None);
  }

  lemma ClearStep(cfg: Setting, s: State, t: F.Tid)
    requires Inv(cfg, s) && Enabled(s, Clear(t))
    ensures Inv(cfg, Perform(cfg, s, Clear(t)))
  {
    var u, k := Perform(cfg, s, Clear(t)), KeyOf(s, t);
    forall j { WithoutKeepsOthers(s.failed, k, j); }
    assert Past(s, t);
    MissStays(cfg, s, u, t, None);
    FailuresStay(cfg, s, u, t, None);
  }

  lemma CommitStep(cfg: Setting, s: State, t: F.Tid)
    requires Inv(cfg, s) && Enabled(s, Commit(t))
    ensures Inv(cfg, Perform(cfg, s, Commit(t)))
  {
    hide Stored;
    hide Get;
    hide DistinctKeys;
    var u, k := Perform(cfg, s, Commit(t)), KeyOf(s, t);
    forall j { StoredKeepsOthers(s.cache, k, cfg.frontier(k), cfg.maxEntries, j); }
    MissStays(cfg, s, u, t, Some(k));
    FailuresStay(cfg, s, u, t, None);
  }

  lemma RejectStep(cfg: Setting, s: State, t: F.Tid)
    requires Inv(cfg, s) && Enabled(s, Reject(t))
    ensures Inv(cfg, Perform(cfg, s, Reject(t)))
  {
    hide Stored;
    hide Get;
    hide DistinctKeys;
    var u, k := Perform(cfg, s, Reject(t)), KeyOf(s, t);
    forall j { StoredKeepsOthers(s.failed, k, s.now, cfg.maxFailures, j); }
    MissStays(cfg, s, u, t, None);
    FailuresStay(cfg, s, u, t, Some(k));
  }

  /** Traffic outside the flight. */
  lemma TrafficStep(cfg: Setting, s: State, a: Action)
    requires Inv(cfg, s) && Enabled(s, a) && (a.Tick? || a.Peek? || a.PeekFailure? || a.Invalidate?)
    ensures Inv(cfg, Perform(cfg, s, a))
  {
    hide F.Inv;
    match a {
      case Peek(key) => forall j { TouchKeepsGet(s.cache, key, j); }
      case PeekFailure(key) => forall j { RecentKeepsOthers(s.failed, key, cfg.ttl, s.now, j); }
      case Invalidate(keep) =>
        KeepDistinct(s.cache, keep);
        KeepDistinct(s.failed, keep);
        forall j { KeepKeepsOthers(s.cache, keep, j); }
        forall j { KeepKeepsOthers(s.failed, keep, j); }
      case _ =>
    }
    FadingStep(cfg, s, Perform(cfg, s, a));
  }

  /** Every step of every request keeps the invariant. */
  lemma StepKeepsInv(cfg: Setting, s: State, a: Action)
    requires Inv(cfg, s) && Enabled(s, a)
    ensures Inv(cfg, Perform(cfg, s, a))
  {
    hide Inv;
    hide Perform;
    match a
    case Protocol(b) => ProtocolStep(cfg, s, b);
    case Recheck(t) => RecheckStep(cfg, s, t);
    case CheckFailure(t) => CheckFailureStep(cfg, s, t);
    case Clear(t) => ClearStep(cfg, s, t);
    case Commit(t) => CommitStep(cfg, s, t);
    case Reject(t) => RejectStep(cfg, s, t);
    case _ => TrafficStep(cfg, s, a);
  }

  // ---- All interleavings ----

  function Run(cfg: Setting, s: State, actions: seq<Action>): Option<State>
    decreases |actions|
  {
    if actions == [] then Some(s)
    else if Enabled(s, actions[0]) then Run(cfg, Perform(cfg, s, actions[0]), actions[1..])
    else None
  }

  lemma {:induction false} RunKeepsInv(cfg: Setting, s: State, actions: seq<Action>)
    requires Inv(cfg, s) && Run(cfg, s, actions).Some?
    ensures Inv(cfg, Run(cfg, s, actions).value)
    decreases |actions|
  {
    if actions != [] {
      StepKeepsInv(cfg, s, actions[0]);
      RunKeepsInv(cfg, Perform(cfg, s, actions[0]), actions[1..]);
    }
  }

  /**
   In every state any interleaving reaches: no two synthesis rounds of one key overlap, and while a round of a
   key is being paid for its cleared payload is not cached and its failure is not inside the time to live,
   so in particular none starts then.
   */
  lemma NoDoublePayment(cfg: Setting, max: nat, cache: seq<Item<F.Key, int>>, now: real, actions: seq<Action>)
    requires DistinctKeys(cache) && Run(cfg, Init(max, cache, now), actions).Some?
    ensures var s := Run(cfg, Init(max, cache, now), actions).value;
            && (forall t, x :: InRound(s, t) && InRound(s, x) && KeyOf(s, t) == KeyOf(s, x) ==> t == x)
            && (forall t :: InRound(s, t) ==>
                  !Hit(cfg, s, KeyOf(s, t)) && !Recent(s.failed, KeyOf(s, t), cfg.ttl, s.now))
  {
    F.InitInv(max);
    RunKeepsInv(cfg, Init(max, cache, now), actions);
    var s := Run(cfg, Init(max, cache, now), actions).value;
    forall t | InRound(s, t) ensures Past(s, t) {}
    forall t, x | InRound(s, t) && InRound(s, x) && KeyOf(s, t) == KeyOf(s, x) ensures t == x {
      OneInBody(s.flight, t, x);
    }
  }

  /** A round that ends cleared or rejected is remembered: the next request of the key does not pay. */
  lemma RoundIsRemembered(cfg: Setting, s: State, t: F.Tid)
    requires Inv(cfg, s) && cfg.maxEntries >= 1 && cfg.maxFailures >= 1 && cfg.ttl > 0.0
    ensures In(s, t, Committing) ==> Hit(cfg, Perform(cfg, s, Commit(t)), KeyOf(s, t))
    ensures In(s, t, Paying) ==> Recent(Perform(cfg, s, Reject(t)).failed, KeyOf(s, t), cfg.ttl, s.now)
  {
    if In(s, t, Committing) { CommitIsFound(cfg, s, t); }
    if In(s, t, Paying) { RejectIsFound(cfg, s, t); }
    hide *;
  }

  lemma CommitIsFound(cfg: Setting, s: State, t: F.Tid)
    requires DistinctKeys(s.cache) && cfg.maxEntries >= 1 && In(s, t, Committing)
    ensures Hit(cfg, Perform(cfg, s, Commit(t)), KeyOf(s, t))
  {
    StoredIsFound(s.cache, KeyOf(s, t), cfg.frontier(KeyOf(s, t)), cfg.maxEntries);
    hide Stored;
    hide Get;
    hide DistinctKeys;
  }

  lemma RejectIsFound(cfg: Setting, s: State, t: F.Tid)
    requires DistinctKeys(s.failed) && cfg.maxFailures >= 1 && cfg.ttl > 0.0 && In(s, t, Paying)
    ensures Recent(Perform(cfg, s, Reject(t)).failed, KeyOf(s, t), cfg.ttl, s.now)
  {
    StoredIsFound(s.failed, KeyOf(s, t), s.now, cfg.maxFailures);
    hide Stored;
    hide Get;
    hide DistinctKeys;
  }

  lemma StoredIsFound<V(!new)>(d: seq<Item<F.Key, V>>, k: F.Key, v: V, limit: nat)
    requires DistinctKeys(d) && limit >= 1
    ensures Get(Stored(d, k, v, limit), k) == Some(v)
  {
    PutLastFacts(d, k, v);
    NewestFacts(PutLast(d, k, v), limit);
    GetIsMember(Stored(d, k, v, limit), k, v);
    assert Stored(d, k, v, limit)[|Stored(d, k, v, limit)| - 1] == Item(k, v);
  }

  /**
   A thread that gets into the body pays exactly when the key's recap of the expected frontier is not cached and no
   round of the key has failed inside the time to live.
   */
  lemma PaysExactly(cfg: Setting, s: State, t: F.Tid)
    requires Inv(cfg, s) && In(s, t, Rechecking)
    ensures var key := KeyOf(s, t);
            var u := Perform(cfg, s, Recheck(t));
            var cached := Item(key, cfg.frontier(key)) in s.cache;
            var failing := exists x :: x in s.failed && x.key == key && s.now - x.value < cfg.ttl;
            && (if cached then In(u, t, Finished) else Enabled(u, CheckFailure(t)))
            && (!cached ==> In(Perform(cfg, u, CheckFailure(t)), t, if failing then Finished else Paying))
  {
    hide F.Inv;
    var key := KeyOf(s, t);
    GetIsMember(s.cache, key, cfg.frontier(key));
    if Get(s.failed, key).Some? {
      GetIsMember(s.failed, key, Get(s.failed, key).value);
      assert Item(key, Get(s.failed, key).value) in s.failed;
    }
    forall x | x in s.failed && x.key == key ensures Get(s.failed, key) == Some(x.value) {
      GetIsMember(s.failed, key, x.value);
    }
    hide Get;
    hide Touch;
    hide Without;
  }
}
