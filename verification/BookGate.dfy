/**
 `book_lifecycle`: per book, readers share, position writes queue behind each other, and a mutation waits
 for the readers while its lock keeps new ones out. The registry cleans itself up. Code between two awaits
 is one atomic step; a waiting request may be cancelled at any await.
 */
module BookGate {
  import opened Counting
  import opened Wrappers

  type Book = nat
  type Rid = nat

  datatype Kind = Read | Position | Mutate

  /** What a request awaits, or whether it is in its body. `ticket` counts the wake-ups before it waited. */
  datatype Pc = WaitLock | WaitPosition | Reading | WaitReaders(ticket: nat) | Mutating

  datatype Request = Request(book: Book, kind: Kind, entry: nat, pc: Pc)

  /** `wakes` counts how often the event was set: `wait` returns once woken and does not look again. */
  datatype Entry = Entry(book: Book, refs: int, readers: int, done: bool, wakes: nat,
                         holder: Option<Rid>, writer: Option<Rid>)

  datatype State = State(registry: map<Book, nat>, entries: map<nat, Entry>, nextEntry: nat,
                         requests: map<Rid, Request>, nextRequest: nat)

  function Init(): State {
    State(map[], map[], 0, map[], 0)
  }

  datatype Action =
    | Begin(book: Book, kind: Kind)
    | Admit(r: Rid)
    | TakePosition(r: Rid)
    | Wake(r: Rid)
    | End(r: Rid)
    | Cancel(r: Rid)

  predicate InBody(pc: Pc) {
    pc.Reading? || pc.Mutating?
  }

  /** Every live request knows an entry made for its book. */
  ghost predicate Known(s: State) {
    && (forall b :: b in s.registry ==> s.registry[b] in s.entries && s.entries[s.registry[b]].book == b)
    && (forall r :: r in s.requests ==> s.requests[r].entry in s.entries && r < s.nextRequest)
    && (forall id :: id in s.entries ==> id < s.nextEntry)
  }

  function EntryOf(s: State, r: Rid): Entry
    requires r in s.requests && s.requests[r].entry in s.entries
  {
    s.entries[s.requests[r].entry]
  }

  ghost predicate Enabled(s: State, a: Action) {
    match a
    case Begin(_, _) => true
    case Admit(r) => r in s.requests && s.requests[r].pc.WaitLock? && s.requests[r].entry in s.entries
      && EntryOf(s, r).holder.None?
    case TakePosition(r) => r in s.requests && s.requests[r].pc.WaitPosition? && s.requests[r].entry in s.entries
      && EntryOf(s, r).writer.None?
    case Wake(r) => r in s.requests && s.requests[r].pc.WaitReaders? && s.requests[r].entry in s.entries
      && EntryOf(s, r).wakes > s.requests[r].pc.ticket
    case End(r) => r in s.requests && InBody(s.requests[r].pc) && s.requests[r].entry in s.entries
    case Cancel(r) => r in s.requests && !InBody(s.requests[r].pc) && s.requests[r].entry in s.entries
  }

  function Enter(s: State, book: Book, kind: Kind): State
    requires book in s.registry ==> s.registry[book] in s.entries
  {
    var id := if book in s.registry then s.registry[book] else s.nextEntry;
    var e := if book in s.registry then s.entries[id] else Entry(book, 0, 0, true, 0, None, None);
    State(s.registry[book := id], s.entries[id := e.(refs := e.refs + 1)], if book in s.registry then s.nextEntry
          else s.nextEntry + 1,
          s.requests[s.nextRequest := Request(book, kind, id, WaitLock)], s.nextRequest + 1)
  }

  /** Moves a live request and updates its entry. */
  function Move(s: State, r: Rid, e: Entry, pc: Pc): State
    requires r in s.requests
  {
    s.(entries := s.entries[s.requests[r].entry := e], requests := s.requests[r := s.requests[r].(pc := pc)])
  }

  function Admitted(e: Entry, r: Rid, kind: Kind): (Entry, Pc) {
    match kind
    case Read => (e.(readers := e.readers + 1, done := false), Reading)
    case Position => (e.(readers := e.readers + 1, done := false), WaitPosition)
    case Mutate => (e.(holder := Some(r)), if e.done then Mutating else WaitReaders(e.wakes))
  }

  /** What unwinding the context managers does to the entry. */
  function Released(e: Entry, q: Request): Entry {
    match q.pc
    case WaitLock => e
    case WaitReaders(_) => e.(holder := None)
    case Mutating => e.(holder := None)
    case _ =>
      var unlocked := if q.pc.Reading? && q.kind.Position? then e.(writer := None) else e;
      var fewer := unlocked.(readers := e.readers - 1);
      if fewer.readers == 0 && !e.done then fewer.(done := true, wakes := e.wakes + 1) else fewer
  }

  /** Leaving, by the end of the body or by cancellation; the last request out removes the entry. */
  function Leave(s: State, r: Rid): State
    requires r in s.requests && s.requests[r].entry in s.entries
  {
    var q := s.requests[r];
    var e := Released(s.entries[q.entry], q);
    var left := e.(refs := e.refs - 1);
    s.(entries := s.entries[q.entry := left], requests := s.requests - {r},
       registry := if left.refs == 0 && q.book in s.registry && s.registry[q.book] == q.entry then s.registry - {q.book}
         else s.registry)
  }

  function Perform(s: State, a: Action): State
    requires Known(s) && Enabled(s, a)
  {
    match a
    case Begin(book, kind) => Enter(s, book, kind)
    case Admit(r) => var (e, pc) := Admitted(EntryOf(s, r), r, s.requests[r].kind); Move(s, r, e, pc)
    case TakePosition(r) => Move(s, r, EntryOf(s, r).(writer := Some(r)), Reading)
    case Wake(r) => Move(s, r, EntryOf(s, r), Mutating)
    case End(r) => Leave(s, r)
    case Cancel(r) => Leave(s, r)
  }

  // ---- The invariant ----

  predicate Counts(q: Request) {
    q.pc.WaitPosition? || q.pc.Reading?
  }

  predicate HoldsLock(q: Request) {
    q.pc.WaitReaders? || q.pc.Mutating?
  }

  predicate Writes(q: Request) {
    q.kind.Position? && q.pc.Reading?
  }

  function Live(s: State, b: Book): set<Rid> {
    set r | r in s.requests && s.requests[r].book == b
  }

  function Readers(s: State, b: Book): set<Rid> {
    set r | r in s.requests && s.requests[r].book == b && Counts(s.requests[r])
  }

  /** Every live request of a book is on the one registered entry. */
  ghost predicate Shared(s: State) {
    forall r :: r in s.requests ==>
      s.requests[r].book in s.registry && s.registry[s.requests[r].book] == s.requests[r].entry
  }

  ghost predicate Counted(s: State, b: Book)
    requires b in s.registry && s.registry[b] in s.entries
  {
    var e := s.entries[s.registry[b]];
    e.refs == |Live(s, b)| > 0 && e.readers == |Readers(s, b)|
  }

  predicate KindOk(q: Request) {
    && (q.pc.WaitPosition? ==> q.kind.Position?) && (q.pc.Reading? ==> !q.kind.Mutate?)
    && (HoldsLock(q) ==> q.kind.Mutate?)
  }

  predicate HolderIs(s: State, r: Rid, b: Book) {
    r in s.requests && s.requests[r].book == b && HoldsLock(s.requests[r])
  }

  predicate WriterIs(s: State, r: Rid, b: Book) {
    r in s.requests && s.requests[r].book == b && Writes(s.requests[r])
  }

  /** A mutation runs, and a waiting one has been woken, exactly when no reader is left. */
  predicate MutationOk(e: Entry, q: Request) {
    (q.pc.Mutating? ==> e.readers == 0) && (q.pc.WaitReaders?
                                            ==> q.pc.ticket <= e.wakes && (q.pc.ticket < e.wakes <==> e.readers == 0))
  }

  /** The lock is held by exactly the mutation inside it; the event is set exactly when nobody reads. */
  ghost predicate Gated(s: State, b: Book)
    requires b in s.registry && s.registry[b] in s.entries
  {
    var e := s.entries[s.registry[b]];
    && (e.done <==> e.readers == 0) && (e.holder.Some? ==> HolderIs(s, e.holder.value, b))
    && (forall r: Rid :: HolderIs(s, r, b) ==> e.holder == Some(r) && MutationOk(e, s.requests[r]))
  }

  /** The position lock is held by exactly the position write in its body. */
  ghost predicate Serial(s: State, b: Book)
    requires b in s.registry && s.registry[b] in s.entries
  {
    var e := s.entries[s.registry[b]];
    && (e.writer.Some? ==> WriterIs(s, e.writer.value, b))
    && (forall r: Rid :: WriterIs(s, r, b) ==> e.writer == Some(r))
  }

  ghost predicate KindsOk(s: State) {
    forall r :: r in s.requests ==> KindOk(s.requests[r])
  }

  ghost predicate Inv(s: State) {
    && Known(s) && Shared(s) && KindsOk(s)
    && (forall b :: b in s.registry ==> Counted(s, b))
    && (forall b :: b in s.registry ==> Gated(s, b))
    && (forall b :: b in s.registry ==> Serial(s, b))
  }

  // ---- Counting ----

  ghost predicate OnlyMoved(s: State, u: State, r: Rid) {
    forall x :: x != r ==>
      (x in u.requests <==> x in s.requests) && (x in s.requests ==> u.requests[x] == s.requests[x])
  }

  function One(holds: bool): int {
    if holds then 1 else 0
  }

  predicate IsLive(s: State, r: Rid, b: Book) {
    r in s.requests && s.requests[r].book == b
  }

  predicate IsReader(s: State, r: Rid, b: Book) {
    r in s.requests && s.requests[r].book == b && Counts(s.requests[r])
  }

  /** A step of `r` moves at most `r` in or out of a book's live requests and readers. */
  lemma Recount(s: State, u: State, r: Rid, b: Book)
    requires OnlyMoved(s, u, r)
    ensures |Live(u, b)| == |Live(s, b)| - One(IsLive(s, r, b)) + One(IsLive(u, r, b))
    ensures |Readers(u, b)| == |Readers(s, b)| - One(IsReader(s, r, b)) + One(IsReader(u, r, b))
  {
    SizeMoved(Live(s, b), Live(u, b), r);
    SizeMoved(Readers(s, b), Readers(u, b), r);
  }

  lemma ReadersAreLive(s: State, b: Book)
    ensures |Readers(s, b)| <= |Live(s, b)|
  {
    SubsetSize(Readers(s, b), Live(s, b));
  }

  // ---- Every step keeps it ----

  /** A step of `r` on book `b`: nothing of another book or of another request changes. */
  ghost predicate Local(s: State, u: State, r: Rid, b: Book) {
    && OnlyMoved(s, u, r)
    && (r in s.requests ==> s.requests[r].book == b) && (r in u.requests ==> u.requests[r].book == b)
    && (forall o :: o != b ==> (o in u.registry <==> o in s.registry))
    && (forall o :: o != b && o in s.registry ==> u.registry[o] == s.registry[o])
    && (forall o :: o != b && o in s.registry && s.registry[o] in s.entries ==>
          s.registry[o] in u.entries && u.entries[s.registry[o]] == s.entries[s.registry[o]])
  }

  /** What the invariant says about one book, without its quantifiers over books. */
  lemma BookFacts(s: State, b: Book)
    requires Inv(s) && b in s.registry
    ensures s.registry[b] in s.entries && s.entries[s.registry[b]].book == b
    ensures Counted(s, b) && Gated(s, b) && Serial(s, b)
  {
  }

  lemma RequestFacts(s: State, r: Rid)
    requires Inv(s) && r in s.requests
    ensures var q := s.requests[r];
            q.entry in s.entries && q.book in s.registry && s.registry[q.book] == q.entry && KindOk(q)
  {
  }

  lemma OthersCounted(s: State, u: State, r: Rid, b: Book, o: Book)
    requires Inv(s) && Local(s, u, r, b) && o != b && o in u.registry
    ensures u.registry[o] in u.entries && Counted(u, o)
  {
    BookFacts(s, o);
    hide Inv;
    hide Gated;
    hide Serial;
    assert Live(u, o) == Live(s, o);
    assert Readers(u, o) == Readers(s, o);
  }

  lemma OthersGated(s: State, u: State, r: Rid, b: Book, o: Book)
    requires Inv(s) && Local(s, u, r, b) && o != b && o in u.registry
    ensures u.registry[o] in u.entries && Gated(u, o) && Serial(u, o)
  {
    BookFacts(s, o);
    hide Inv;
    hide Counted;
    assert forall x: Rid :: HolderIs(u, x, o) <==> HolderIs(s, x, o);
    assert forall x: Rid :: WriterIs(u, x, o) <==> WriterIs(s, x, o);
  }

  lemma FromLocal(s: State, u: State, r: Rid, b: Book)
    requires Inv(s) && Local(s, u, r, b) && Known(u) && Shared(u) && KindsOk(u)
    requires b in u.registry ==> Counted(u, b) && Gated(u, b) && Serial(u, b)
    ensures Inv(u)
  {
    hide Counted;
    hide Gated;
    hide Serial;
    hide Local;
    forall o | o in u.registry ensures Counted(u, o) && Gated(u, o) && Serial(u, o) {
      if o != b { OthersCounted(s, u, r, b, o); OthersGated(s, u, r, b, o); }
    }
  }

  /** The lock facts of a book after a step of `r`, from what changed. */
  lemma GatedAfter(s: State, u: State, r: Rid, b: Book)
    requires b in s.registry && s.registry[b] in s.entries && Gated(s, b)
    requires b in u.registry && u.registry[b] in u.entries && OnlyMoved(s, u, r)
    requires var e, f := s.entries[s.registry[b]], u.entries[u.registry[b]];
             && (f.done <==> f.readers == 0)
             && (HolderIs(u, r, b) ==> f.holder == Some(r) && MutationOk(f, u.requests[r]))
             && (f.holder == Some(r) ==> HolderIs(u, r, b))
             && (f.holder != Some(r) ==>
                 (f.holder.Some? ==> f.holder == e.holder)
                 && (e.holder.Some? && e.holder != Some(r) ==> f.holder == e.holder))
             && (e.holder.Some? && e.holder != Some(r) ==>
                   f.holder == e.holder && (e.holder.value in s.requests && MutationOk(e, s.requests[e.holder.value])
                                            ==> MutationOk(f, s.requests[e.holder.value])))
    ensures Gated(u, b)
  {
    assert forall x: Rid :: x != r ==> (HolderIs(u, x, b) <==> HolderIs(s, x, b));
  }

  lemma SerialAfter(s: State, u: State, r: Rid, b: Book)
    requires b in s.registry && s.registry[b] in s.entries && Serial(s, b)
    requires b in u.registry && u.registry[b] in u.entries && OnlyMoved(s, u, r)
    requires var e, f := s.entries[s.registry[b]], u.entries[u.registry[b]];
             && (WriterIs(u, r, b) <==> f.writer == Some(r))
             && (f.writer != e.writer ==>
                 (f.writer.None? || f.writer == Some(r)) && (e.writer.None? || e.writer == Some(r)))
    ensures Serial(u, b)
  {
    assert forall x: Rid :: x != r ==> (WriterIs(u, x, b) <==> WriterIs(s, x, b));
  }

  // A new request.

  lemma EnterLocal(s: State, book: Book, kind: Kind)
    requires Inv(s)
    ensures Local(s, Enter(s, book, kind), s.nextRequest, book)
  {
    hide Counted;
    hide Gated;
    hide Serial;
    hide KindsOk;
  }

  lemma EnterShape(s: State, book: Book, kind: Kind)
    requires Inv(s)
    ensures var u := Enter(s, book, kind); Known(u) && Shared(u) && KindsOk(u)
  {
    hide Counted;
    hide Gated;
    hide Serial;
  }

  lemma EnterCounted(s: State, book: Book, kind: Kind)
    requires Inv(s)
    ensures var u := Enter(s, book, kind); u.registry[book] in u.entries && Counted(u, book)
  {
    var u := Enter(s, book, kind);
    EnterLocal(s, book, kind);
    Recount(s, u, s.nextRequest, book);
    ReadersAreLive(s, book);
    if book in s.registry { BookFacts(s, book); } else { NobodyOn(s, book); }
    assert s.nextRequest !in s.requests;
    hide Inv;
    hide Live;
    hide Readers;
  }

  lemma NobodyOn(s: State, b: Book)
    requires Inv(s) && b !in s.registry
    ensures Live(s, b) == {}
  {
  }

  lemma EnterGated(s: State, book: Book, kind: Kind)
    requires Inv(s) && book in s.registry
    ensures var u := Enter(s, book, kind); u.registry[book] in u.entries && Gated(u, book) && Serial(u, book)
  {
    var u, r := Enter(s, book, kind), s.nextRequest;
    EnterLocal(s, book, kind);
    assert r !in s.requests;
    BookFacts(s, book);
    hide Inv;
    assert s.entries[s.registry[book]].done <==> s.entries[s.registry[book]].readers == 0;
    assert s.entries[s.registry[book]].holder != Some(r) && s.entries[s.registry[book]].writer != Some(r);
    hide Counted;
    hide Gated;
    hide Serial;
    GatedAfter(s, u, r, book);
    SerialAfter(s, u, r, book);
  }

  lemma EnterFresh(s: State, book: Book, kind: Kind)
    requires Inv(s) && book !in s.registry
    ensures var u := Enter(s, book, kind); u.registry[book] in u.entries && Gated(u, book) && Serial(u, book)
  {
    var u, r := Enter(s, book, kind), s.nextRequest;
    NobodyOn(s, book);
    hide Inv;
    forall x: Rid ensures !HolderIs(u, x, book) && !WriterIs(u, x, book) {
      assert IsLive(s, x, book) ==> x in Live(s, book);
    }
  }

  lemma EnterStep(s: State, book: Book, kind: Kind)
    requires Inv(s)
    ensures Inv(Enter(s, book, kind))
  {
    hide Counted;
    hide Gated;
    hide Serial;
    hide Local;
    EnterLocal(s, book, kind);
    EnterShape(s, book, kind);
    EnterCounted(s, book, kind);
    if book in s.registry { EnterGated(s, book, kind); } else { EnterFresh(s, book, kind); }
    FromLocal(s, Enter(s, book, kind), s.nextRequest, book);
  }

  // A request that stays live.

  /** The entry and place a request moves to inside the gate. */
  ghost predicate Moves(s: State, r: Rid, e: Entry, pc: Pc) {
    && r in s.requests && s.requests[r].entry in s.entries
    && ((Enabled(s, Admit(r)) && (e, pc) == Admitted(EntryOf(s, r), r, s.requests[r].kind))
        || (Enabled(s, TakePosition(r)) && e == EntryOf(s, r).(writer := Some(r)) && pc == Reading)
        || (Enabled(s, Wake(r)) && e == EntryOf(s, r) && pc == Mutating))
  }

  lemma MoveLocal(s: State, r: Rid, e: Entry, pc: Pc)
    requires Inv(s) && r in s.requests
    ensures Local(s, Move(s, r, e, pc), r, s.requests[r].book)
  {
    hide Counted;
    hide Gated;
    hide Serial;
    hide KindsOk;
  }

  lemma MoveShape(s: State, r: Rid, e: Entry, pc: Pc)
    requires Inv(s) && Moves(s, r, e, pc)
    ensures var u := Move(s, r, e, pc); Known(u) && Shared(u) && KindsOk(u)
  {
    hide Counted;
    hide Gated;
    hide Serial;
  }

  lemma MovedEntry(s: State, r: Rid, e: Entry, pc: Pc)
    requires Moves(s, r, e, pc) && KindOk(s.requests[r])
    ensures e.refs == EntryOf(s, r).refs
    ensures e.readers == EntryOf(s, r).readers - One(Counts(s.requests[r])) + One(Counts(s.requests[r].(pc := pc)))
  {
  }

  lemma MoveCounted(s: State, r: Rid, e: Entry, pc: Pc)
    requires Inv(s) && Moves(s, r, e, pc)
    ensures var u := Move(s, r, e, pc); var b := s.requests[r].book;
            b in u.registry && u.registry[b] in u.entries && Counted(u, b)
  {
    var u, b := Move(s, r, e, pc), s.requests[r].book;
    RequestFacts(s, r);
    BookFacts(s, b);
    MovedEntry(s, r, e, pc);
    Recount(s, u, r, b);
    hide Inv;
    hide Gated;
    hide Serial;
    hide Live;
    hide Readers;
    hide OnlyMoved;
    hide Moves;
  }

  lemma MoveGated(s: State, r: Rid, e: Entry, pc: Pc)
    requires Inv(s) && Moves(s, r, e, pc)
    ensures var u := Move(s, r, e, pc); var b := s.requests[r].book;
            b in u.registry && u.registry[b] in u.entries && Gated(u, b) && Serial(u, b)
  {
    var u, b := Move(s, r, e, pc), s.requests[r].book;
    RequestFacts(s, r);
    BookFacts(s, b);
    hide Inv;
    assert EntryOf(s, r).readers >= 0 && (HolderIs(s, r, b) ==> MutationOk(EntryOf(s, r), s.requests[r]));
    assert WriterIs(s, r, b) <==> EntryOf(s, r).writer == Some(r);
    assert HolderIs(s, r, b) <==> EntryOf(s, r).holder == Some(r);
    hide Counted;
    hide Gated;
    hide Serial;
    GatedAfter(s, u, r, b);
    SerialAfter(s, u, r, b);
  }

  lemma MoveStep(s: State, r: Rid, e: Entry, pc: Pc)
    requires Inv(s) && Moves(s, r, e, pc)
    ensures Inv(Move(s, r, e, pc))
  {
    MoveLocal(s, r, e, pc);
    MoveShape(s, r, e, pc);
    MoveCounted(s, r, e, pc);
    MoveGated(s, r, e, pc);
    hide Counted;
    hide Gated;
    hide Serial;
    hide Local;
    hide Moves;
    FromLocal(s, Move(s, r, e, pc), r, s.requests[r].book);
  }

  // A request that leaves.

  /** The last request of a book is alone on its entry. */
  lemma LastOut(s: State, r: Rid)
    requires Inv(s) && r in s.requests
    ensures EntryOf(s, r).refs == 1 ==> forall x ::
            x in s.requests && s.requests[x].book == s.requests[r].book ==> x == r
    ensures EntryOf(s, r).refs >= 1
  {
    var b := s.requests[r].book;
    assert r in Live(s, b);
    OneIn(Live(s, b), r);
    forall x | x in s.requests && s.requests[x].book == b && EntryOf(s, r).refs == 1 ensures x == r {
      assert x in Live(s, b);
    }
  }

  lemma LeaveLocal(s: State, r: Rid)
    requires Inv(s) && r in s.requests
    ensures Local(s, Leave(s, r), r, s.requests[r].book)
  {
    hide Counted;
    hide Gated;
    hide Serial;
    hide KindsOk;
    hide Released;
  }

  lemma ReleasedKeeps(e: Entry, q: Request)
    ensures Released(e, q).book == e.book && Released(e, q).refs == e.refs
  {
  }

  lemma LeaveShape(s: State, r: Rid)
    requires Inv(s) && r in s.requests
    ensures var u := Leave(s, r); Known(u) && KindsOk(u)
  {
    ReleasedKeeps(EntryOf(s, r), s.requests[r]);
    hide Counted;
    hide Gated;
    hide Serial;
    hide Shared;
    hide Released;
  }

  lemma LeaveShared(s: State, r: Rid)
    requires Inv(s) && r in s.requests
    ensures Shared(Leave(s, r))
  {
    LastOut(s, r);
    ReleasedKeeps(EntryOf(s, r), s.requests[r]);
    hide Counted;
    hide Gated;
    hide Serial;
    hide KindsOk;
    hide Released;
  }

  lemma LeaveEntry(s: State, r: Rid)
    requires r in s.requests && s.requests[r].entry in s.entries
    ensures var u, id := Leave(s, r), s.requests[r].entry;
            && id in u.entries && u.entries[id].refs == s.entries[id].refs - 1
            && u.entries[id].readers == s.entries[id].readers - One(Counts(s.requests[r]))
            && (s.requests[r].book in u.registry && s.registry[s.requests[r].book] == id ==> u.entries[id].refs != 0)
  {
  }

  lemma LeaveCounted(s: State, r: Rid)
    requires Inv(s) && r in s.requests
    ensures var u := Leave(s, r); var b := s.requests[r].book;
            b in u.registry ==> u.registry[b] in u.entries && Counted(u, b)
  {
    var u, b := Leave(s, r), s.requests[r].book;
    LeaveLocal(s, r);
    RequestFacts(s, r);
    BookFacts(s, b);
    LeaveEntry(s, r);
    Recount(s, u, r, b);
    assert IsLive(s, r, b) && !IsLive(u, r, b) && !IsReader(u, r, b) && IsReader(s, r, b) == Counts(s.requests[r]);
    assert b in u.registry ==> u.registry[b] == s.registry[b];
    hide Inv;
    hide Gated;
    hide Serial;
    hide Live;
    hide Readers;
    hide Leave;
    hide OnlyMoved;
    hide Local;
  }

  lemma LeaveGated(s: State, r: Rid)
    requires Inv(s) && r in s.requests
    ensures var u := Leave(s, r); var b := s.requests[r].book;
            b in u.registry ==> u.registry[b] in u.entries && Gated(u, b) && Serial(u, b)
  {
    var u, b := Leave(s, r), s.requests[r].book;
    ReaderIsCounted(s, r);
    RequestFacts(s, r);
    BookFacts(s, b);
    hide Inv;
    assert HolderIs(s, r, b) ==> MutationOk(EntryOf(s, r), s.requests[r]);
    assert WriterIs(s, r, b) <==> EntryOf(s, r).writer == Some(r);
    assert HolderIs(s, r, b) <==> EntryOf(s, r).holder == Some(r);
    assert EntryOf(s, r).done <==> EntryOf(s, r).readers == 0;
    hide Counted;
    hide Gated;
    hide Serial;
    if b in u.registry {
      GatedAfter(s, u, r, b);
      SerialAfter(s, u, r, b);
    }
  }

  lemma ReaderIsCounted(s: State, r: Rid)
    requires Inv(s) && r in s.requests
    ensures Counts(s.requests[r]) ==> EntryOf(s, r).readers >= 1
  {
    RequestFacts(s, r);
    BookFacts(s, s.requests[r].book);
    hide Inv;
    if Counts(s.requests[r]) {
      assert r in Readers(s, s.requests[r].book);
      OneIn(Readers(s, s.requests[r].book), r);
    }
  }

  lemma LeaveStep(s: State, r: Rid)
    requires Inv(s) && r in s.requests
    ensures Inv(Leave(s, r))
  {
    LeaveLocal(s, r);
    LeaveShape(s, r);
    LeaveShared(s, r);
    LeaveCounted(s, r);
    LeaveGated(s, r);
    hide Counted;
    hide Gated;
    hide Serial;
    hide Local;
    FromLocal(s, Leave(s, r), r, s.requests[r].book);
  }

  /** Every step of every request keeps the invariant, cancellations included. */
  lemma StepKeepsInv(s: State, a: Action)
    requires Inv(s) && Enabled(s, a)
    ensures Inv(Perform(s, a))
  {
    hide Counted;
    hide Gated;
    hide Serial;
    match a
    case Begin(book, kind) => EnterStep(s, book, kind);
    case Admit(r) => var (e, pc) := Admitted(EntryOf(s, r), r, s.requests[r].kind); MoveStep(s, r, e, pc);
    case TakePosition(r) => MoveStep(s, r, EntryOf(s, r).(writer := Some(r)), Reading);
    case Wake(r) => MoveStep(s, r, EntryOf(s, r), Mutating);
    case End(r) => LeaveStep(s, r);
    case Cancel(r) => LeaveStep(s, r);
  }

  // ---- All interleavings ----

  lemma InitInv()
    ensures Inv(Init())
  {
  }

  /** The state after the actions, if each was enabled when its turn came. */
  ghost function Run(s: State, actions: seq<Action>): Option<State>
    decreases |actions|
  {
    if actions == [] then Some(s)
    else if Known(s) && Enabled(s, actions[0]) then Run(Perform(s, actions[0]), actions[1..])
    else None
  }

  lemma {:induction false} RunKeepsInv(s: State, actions: seq<Action>)
    requires Inv(s) && Run(s, actions).Some?
    ensures Inv(Run(s, actions).value)
    decreases |actions|
  {
    if actions != [] {
      StepKeepsInv(s, actions[0]);
      RunKeepsInv(Perform(s, actions[0]), actions[1..]);
    }
  }

  /** While a mutation runs, no other request of its book reads, waits to write, or runs. */
  ghost predicate MutationsAlone(s: State) {
    forall m, x :: m in s.requests && s.requests[m].pc.Mutating? && x in s.requests && x != m
                   && s.requests[x].book == s.requests[m].book
      ==> s.requests[x].pc.WaitLock?
  }

  ghost predicate WritesAlone(s: State) {
    forall m, x :: m in s.requests && x in s.requests && Writes(s.requests[m]) && Writes(s.requests[x])
                   && s.requests[x].book == s.requests[m].book
      ==> m == x
  }

  /** The registry holds exactly the books with a live request, each on one entry that counts them. */
  ghost predicate SelfCleaning(s: State) {
    && (forall b :: b in s.registry <==> Live(s, b) != {})
    && (forall b :: b in s.registry ==> s.registry[b] in s.entries && s.entries[s.registry[b]].refs == |Live(s, b)|)
    && (forall r :: r in s.requests ==>
        s.requests[r].book in s.registry && s.requests[r].entry == s.registry[s.requests[r].book])
  }

  /** The event is set exactly when no admitted reader is left. */
  ghost predicate EventTellsReaders(s: State) {
    forall b :: b in s.registry && s.registry[b] in s.entries
      ==> (s.entries[s.registry[b]].done <==> Readers(s, b) == {})
  }

  lemma MutationAlone(s: State, m: Rid, x: Rid)
    requires Inv(s) && m in s.requests && s.requests[m].pc.Mutating?
    requires x in s.requests && x != m && s.requests[x].book == s.requests[m].book
    ensures s.requests[x].pc.WaitLock?
  {
    var b := s.requests[m].book;
    RequestFacts(s, m);
    RequestFacts(s, x);
    ReaderIsCounted(s, x);
    BookFacts(s, b);
    hide Inv;
    assert HolderIs(s, m, b);
    assert HolderIs(s, x, b) ==> x == m;
  }

  lemma WriteAlone(s: State, m: Rid, x: Rid)
    requires Inv(s) && m in s.requests && x in s.requests && Writes(s.requests[m]) && Writes(s.requests[x])
    requires s.requests[x].book == s.requests[m].book
    ensures m == x
  {
    var b := s.requests[m].book;
    RequestFacts(s, m);
    BookFacts(s, b);
    hide Inv;
    assert WriterIs(s, m, b) && WriterIs(s, x, b);
  }

  lemma CleanRegistry(s: State)
    requires Inv(s)
    ensures SelfCleaning(s)
  {
    forall b ensures b in s.registry <==> Live(s, b) != {} {
      if b in s.registry { BookFacts(s, b); } else { NobodyOn(s, b); }
    }
  }

  lemma EventMeansNoReaders(s: State)
    requires Inv(s)
    ensures EventTellsReaders(s)
  {
    forall b | b in s.registry
      ensures s.registry[b] in s.entries && (s.entries[s.registry[b]].done <==> Readers(s, b) == {})
    {
      BookFacts(s, b);
    }
  }

  /** Every reachable state, for any requests, interleaving and cancellations. */
  lemma GateSafety(actions: seq<Action>)
    requires Run(Init(), actions).Some?
    ensures var s := Run(Init(), actions).value;
            MutationsAlone(s) && WritesAlone(s) && SelfCleaning(s) && EventTellsReaders(s)
  {
    InitInv();
    RunKeepsInv(Init(), actions);
    var s := Run(Init(), actions).value;
    CleanRegistry(s);
    EventMeansNoReaders(s);
    hide Inv;
    hide SelfCleaning;
    hide EventTellsReaders;
    forall m, x | m in s.requests && s.requests[m].pc.Mutating? && x in s.requests && x != m
                  && s.requests[x].book == s.requests[m].book
      ensures s.requests[x].pc.WaitLock?
    { MutationAlone(s, m, x); }
    forall m, x | m in s.requests && x in s.requests && Writes(s.requests[m]) && Writes(s.requests[x])
                  && s.requests[x].book == s.requests[m].book
      ensures m == x
    { WriteAlone(s, m, x); }
  }

  /** A step that some live request of the book can take by itself: no arrival and no cancellation. */
  ghost predicate CanStep(s: State, a: Action, b: Book) {
    (a.Admit? || a.TakePosition? || a.Wake? || a.End?) && a.r in s.requests && s.requests[a.r].book == b
      && Enabled(s, a)
  }

  lemma WriterCanStep(s: State, r: Rid)
    requires Inv(s) && r in s.requests && s.requests[r].pc.WaitPosition? && EntryOf(s, r).writer.Some?
    ensures CanStep(s, End(EntryOf(s, r).writer.value), s.requests[r].book)
  {
    var w, b := EntryOf(s, r).writer.value, s.requests[r].book;
    RequestFacts(s, r);
    BookFacts(s, b);
    assert WriterIs(s, w, b);
    RequestFacts(s, w);
  }

  lemma ReaderCanStep(s: State, r: Rid)
    requires Inv(s) && r in s.requests && Counts(s.requests[r])
    ensures exists a: Action :: CanStep(s, a, s.requests[r].book)
  {
    var b := s.requests[r].book;
    RequestFacts(s, r);
    if s.requests[r].pc.Reading? { assert CanStep(s, End(r), b); }
    else if EntryOf(s, r).writer.None? { assert CanStep(s, TakePosition(r), b); }
    else { WriterCanStep(s, r); }
  }

  lemma HolderCanStep(s: State, m: Rid)
    requires Inv(s) && m in s.requests && HoldsLock(s.requests[m])
    ensures exists a: Action :: CanStep(s, a, s.requests[m].book)
  {
    var b := s.requests[m].book;
    RequestFacts(s, m);
    BookFacts(s, b);
    assert HolderIs(s, m, b);
    if s.requests[m].pc.Mutating? { assert CanStep(s, End(m), b); }
    else if EntryOf(s, m).readers == 0 { assert CanStep(s, Wake(m), b); }
    else {
      assert Readers(s, b) != {};
      var x :| x in Readers(s, b);
      ReaderCanStep(s, x);
    }
  }

  /** No deadlock: while a request of a book is live, some request of that book can take a step. */
  lemma GateProgress(s: State, r: Rid)
    requires Inv(s) && r in s.requests
    ensures exists a: Action :: CanStep(s, a, s.requests[r].book)
  {
    var b := s.requests[r].book;
    RequestFacts(s, r);
    BookFacts(s, b);
    if Counts(s.requests[r]) { ReaderCanStep(s, r); }
    else if HoldsLock(s.requests[r]) { HolderCanStep(s, r); }
    else if EntryOf(s, r).holder.None? { assert CanStep(s, Admit(r), b); }
    else {
      assert HolderIs(s, EntryOf(s, r).holder.value, b);
      HolderCanStep(s, EntryOf(s, r).holder.value);
    }
  }

  // ---- What holds a request up, and what its step does ----

  /** Nothing else in the gate, of this book or another, keeps a waiting request from its step. */
  ghost predicate HeldUpOnlyBy(s: State, r: Rid)
    requires r in s.requests
  {
    var q := s.requests[r];
    match q.pc
    case WaitLock => (Enabled(s, Admit(r)) <==> !SomeRequest(s, q.book, HoldsLock)) && Enabled(s, Cancel(r))
    case WaitPosition => (Enabled(s, TakePosition(r)) <==> !SomeRequest(s, q.book, Writes)) && Enabled(s, Cancel(r))
    case WaitReaders(_) => (Enabled(s, Wake(r)) <==> !SomeRequest(s, q.book, Counts)) && Enabled(s, Cancel(r))
    case _ => Enabled(s, End(r))
  }

  /** Some live request of the book is of that sort. */
  ghost predicate SomeRequest(s: State, b: Book, sort: Request -> bool) {
    exists x :: x in s.requests && s.requests[x].book == b && sort(s.requests[x])
  }

  /** A mutation holds the lock from its admission to its end; reads and position writes hold it for no time. */
  lemma AdmittedExactly(s: State, r: Rid)
    requires Inv(s) && r in s.requests && s.requests[r].pc.WaitLock?
    ensures HeldUpOnlyBy(s, r)
  {
    var b := s.requests[r].book;
    RequestFacts(s, r);
    BookFacts(s, b);
    hide Inv;
    hide Counted;
    hide Serial;
    if EntryOf(s, r).holder.Some? { assert HolderIs(s, EntryOf(s, r).holder.value, b); }
    forall x | x in s.requests && s.requests[x].book == b && HoldsLock(s.requests[x])
      ensures EntryOf(s, r).holder == Some(x)
    { assert HolderIs(s, x, b); }
  }

  lemma PositionTakenExactly(s: State, r: Rid)
    requires Inv(s) && r in s.requests && s.requests[r].pc.WaitPosition?
    ensures HeldUpOnlyBy(s, r)
  {
    var b := s.requests[r].book;
    RequestFacts(s, r);
    BookFacts(s, b);
    hide Inv;
    hide Counted;
    hide Gated;
    if EntryOf(s, r).writer.Some? { assert WriterIs(s, EntryOf(s, r).writer.value, b); }
    forall x | x in s.requests && s.requests[x].book == b && Writes(s.requests[x])
      ensures EntryOf(s, r).writer == Some(x)
    { assert WriterIs(s, x, b); }
  }

  lemma WokenExactly(s: State, r: Rid)
    requires Inv(s) && r in s.requests && s.requests[r].pc.WaitReaders?
    ensures HeldUpOnlyBy(s, r)
  {
    var b := s.requests[r].book;
    RequestFacts(s, r);
    BookFacts(s, b);
    assert HolderIs(s, r, b);
    assert Enabled(s, Wake(r)) <==> Readers(s, b) == {};
    hide Inv;
    hide Gated;
    hide Serial;
    forall x | x in s.requests && s.requests[x].book == b && Counts(s.requests[x])
      ensures x in Readers(s, b)
    {}
    if Readers(s, b) != {} {
      var x :| x in Readers(s, b);
    }
  }

  lemma HeldUpExactly(s: State, r: Rid)
    requires Inv(s) && r in s.requests
    ensures HeldUpOnlyBy(s, r)
  {
    match s.requests[r].pc
    case WaitLock => AdmittedExactly(s, r);
    case WaitPosition => PositionTakenExactly(s, r);
    case WaitReaders(_) => WokenExactly(s, r);
    case _ => RequestFacts(s, r);
  }

  /** Where a request's own step takes it. */
  ghost predicate Arrives(s: State, a: Action, pc: Pc) {
    match a
    case Begin(_, _) => pc.WaitLock?
    case Admit(r) => r in s.requests && (
      match s.requests[r].kind
      case Read => pc.Reading?
      case Position => pc.WaitPosition?
      case Mutate => if SomeRequest(s, s.requests[r].book, Counts)
        then pc.WaitReaders? else pc.Mutating?)
    case TakePosition(r) => pc.Reading?
    case Wake(r) => pc.Mutating?
    case End(_) => false
    case Cancel(_) => false
  }

  function Mover(s: State, a: Action): Rid {
    if a.Begin? then s.nextRequest else a.r
  }

  /** A step moves the one request that takes it, and every other stays where it is. */
  ghost predicate MovesOne(s: State, a: Action, u: State) {
    var r := Mover(s, a);
    && (forall x :: x != r ==>
          (x in u.requests <==> x in s.requests) && (x in s.requests ==> u.requests[x] == s.requests[x]))
    && (if a.End? || a.Cancel? then r !in u.requests else r in u.requests && Arrives(s, a, u.requests[r].pc))
    && (a.Begin? ==> r !in s.requests && u.requests[r].book == a.book && u.requests[r].kind == a.kind)
    && (!a.Begin? && r in u.requests ==>
          r in s.requests && u.requests[r].book == s.requests[r].book && u.requests[r].kind == s.requests[r].kind)
  }

  lemma StepMovesOne(s: State, a: Action)
    requires Inv(s) && Enabled(s, a)
    ensures MovesOne(s, a, Perform(s, a))
  {
    hide Counted;
    hide Gated;
    hide Serial;
    hide Released;
    if a.Begin? {
      assert s.nextRequest !in s.requests;
    } else if a.End? || a.Cancel? {
      assert Perform(s, a) == Leave(s, a.r);
    } else {
      RequestFacts(s, a.r);
      MutationFindsReaders(s, a.r);
      var (e, pc) := match a
        case Admit(r) => Admitted(EntryOf(s, r), r, s.requests[r].kind)
        case TakePosition(r) => (EntryOf(s, r).(writer := Some(r)), Reading)
        case Wake(r) => (EntryOf(s, r), Mutating);
      hide Inv;
      hide SomeRequest;
      assert Arrives(s, a, pc);
      assert Perform(s, a) == Move(s, a.r, e, pc);
    }
  }

  lemma MutationFindsReaders(s: State, r: Rid)
    requires Inv(s) && r in s.requests
    ensures EntryOf(s, r).done <==> !SomeRequest(s, s.requests[r].book, Counts)
  {
    var b := s.requests[r].book;
    RequestFacts(s, r);
    BookFacts(s, b);
    hide Inv;
    hide Serial;
    assert EntryOf(s, r).done <==> Readers(s, b) == {};
    hide Gated;
    if Readers(s, b) != {} {
      var x :| x in Readers(s, b);
    }
    forall x | x in s.requests && s.requests[x].book == b && Counts(s.requests[x])
      ensures x in Readers(s, b)
    {}
  }

  /**
   In every reachable state: a request waiting for the lock can be admitted unless a mutation of its book holds it,
   however many read; a position write waits inside for another position write only; a mutation for readers only;
   and whoever arrives, is admitted or leaves, the others stay where they are. No other book matters.
   */
  lemma ReadersShare(actions: seq<Action>, a: Action)
    requires Run(Init(), actions).Some?
    ensures var s := Run(Init(), actions).value;
            && (forall r :: r in s.requests ==> HeldUpOnlyBy(s, r))
            && Known(s) && (Enabled(s, a) ==> MovesOne(s, a, Perform(s, a)))
  {
    InitInv();
    RunKeepsInv(Init(), actions);
    var s := Run(Init(), actions).value;
    forall r | r in s.requests ensures HeldUpOnlyBy(s, r) { HeldUpExactly(s, r); }
    if Enabled(s, a) { StepMovesOne(s, a); }
    hide MovesOne;
    hide HeldUpOnlyBy;
  }

  // ---- A queued mutation is not passed ----

  lemma NoneJoin(s: State, a: Action, m: Rid)
    requires Inv(s) && Enabled(s, a) && m in s.requests && HoldsLock(s.requests[m])
    ensures Readers(Perform(s, a), s.requests[m].book) <= Readers(s, s.requests[m].book)
  {
    NotAdmitted(s, a, m);
    hide Inv;
    hide Released;
  }

  /** A step taken while `m` holds its book's lock admits no reader to that book. */
  lemma HolderStays(s: State, a: Action, m: Rid)
    requires Inv(s) && Enabled(s, a) && m in s.requests && HoldsLock(s.requests[m])
    ensures var u := Perform(s, a);
            && Readers(u, s.requests[m].book) <= Readers(s, s.requests[m].book)
            && u.nextRequest >= s.nextRequest
            && (m in u.requests ==> HoldsLock(u.requests[m]) && u.requests[m].book == s.requests[m].book
                                    && (s.requests[m].pc.Mutating? ==> u.requests[m].pc.Mutating?))
  {
    NoneJoin(s, a, m);
    NotAdmitted(s, a, m);
    assert a.Begin? ==> s.nextRequest !in s.requests;
    hide Inv;
    hide Released;
    hide Readers;
  }

  lemma NotAdmitted(s: State, a: Action, m: Rid)
    requires Inv(s) && Enabled(s, a) && m in s.requests && HoldsLock(s.requests[m])
    ensures a.Admit? ==> a.r in s.requests && s.requests[a.r].book != s.requests[m].book
    ensures Known(s)
  {
    var b := s.requests[m].book;
    RequestFacts(s, m);
    BookFacts(s, b);
    assert HolderIs(s, m, b);
    if a.Admit? { RequestFacts(s, a.r); }
    hide Inv;
  }

  /** Request ids are never used again. */
  lemma {:induction false} GoneForGood(s: State, actions: seq<Action>, m: Rid)
    requires Inv(s) && Run(s, actions).Some? && m !in s.requests && m < s.nextRequest
    ensures m !in Run(s, actions).value.requests
    decreases |actions|
  {
    if actions != [] {
      StepKeepsInv(s, actions[0]);
      GoneForGood(Perform(s, actions[0]), actions[1..], m);
    }
  }

  /**
   From the moment a mutation holds its book's lock until it leaves, whatever arrives meanwhile: the readers
   left are among those already admitted, so it only waits for them, and once running it stays alone.
   */
  lemma {:induction false} MutationIsNotPassed(s: State, actions: seq<Action>, m: Rid)
    requires Inv(s) && Run(s, actions).Some? && m in s.requests && HoldsLock(s.requests[m])
    requires m in Run(s, actions).value.requests
    ensures var u := Run(s, actions).value;
            && HoldsLock(u.requests[m]) && Readers(u, s.requests[m].book) <= Readers(s, s.requests[m].book)
            && (s.requests[m].pc.Mutating? ==> u.requests[m].pc.Mutating?)
    decreases |actions|
  {
    if actions != [] {
      var t := Perform(s, actions[0]);
      StepKeepsInv(s, actions[0]);
      HolderStays(s, actions[0], m);
      if m !in t.requests { GoneForGood(t, actions[1..], m); }
      else { MutationIsNotPassed(t, actions[1..], m); }
    }
  }
}
