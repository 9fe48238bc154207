/**
 The bounded heaps of question retrieval: a 64-entry heap over every lexical window and a 4-entry heap over
 the newest chapter give exactly what sorting the whole stream would; and the final containment filter.
 */
module AskRetrieval {
  /** Shared names, shared words, and the share of the window's words that are shared. */
  datatype Quality = Quality(names: nat, shared: nat, density: real)

  /** A scored window. `serial` numbers the windows in the order they were scored. */
  datatype Item = Item(quality: Quality, serial: nat, start: nat, end: nat, chapter: string, ordinal: int, text: string)

  const CANDIDATE_LIMIT := 64
  const RECENT_LIMIT := 4

  // ---- The order ----

  predicate Higher(a: Quality, b: Quality) {
    a.names > b.names || (a.names == b.names && (a.shared > b.shared
                                                 || (a.shared == b.shared && a.density > b.density)))
  }

  /** A better quality, or the same quality seen earlier. */
  predicate Above(a: Item, b: Item) {
    Higher(a.quality, b.quality) || (a.quality == b.quality && a.serial < b.serial)
  }

  ghost predicate Descending(s: seq<Item>) {
    forall i, j :: 0 <= i < j < |s| ==> Above(s[i], s[j])
  }

  /** Items that the order tells apart. */
  ghost predicate Fresh(s: seq<Item>, x: Item) {
    forall i :: 0 <= i < |s| ==> s[i].serial != x.serial
  }

  ghost predicate Distinct(s: seq<Item>) {
    forall i, j :: 0 <= i < j < |s| ==> s[i].serial != s[j].serial
  }

  function Insert(s: seq<Item>, x: Item): (r: seq<Item>)
    ensures |r| == |s| + 1
  {
    if s == [] then [x] else if Above(x, s[0]) then [x] + s else [s[0]] + Insert(s[1..], x)
  }

  /** The stream sorted, best first. */
  function Ranked(stream: seq<Item>): seq<Item> {
    if stream == [] then [] else Insert(Ranked(stream[..|stream| - 1]), stream[|stream| - 1])
  }

  function Take(s: seq<Item>, n: nat): seq<Item> {
    if |s| <= n then s else s[..n]
  }

  lemma {:induction false} InsertAdds(s: seq<Item>, x: Item)
    ensures multiset(Insert(s, x)) == multiset(s) + multiset{x}
  {
    hide Above;
    if s == [] {
    } else {
      assert s == [s[0]] + s[1..];
      if !Above(x, s[0]) { InsertAdds(s[1..], x); }
    }
  }

  lemma InsertMembers(s: seq<Item>, x: Item)
    ensures forall y: Item :: y in Insert(s, x) <==> y in s || y == x
  {
    InsertAdds(s, x);
    assert forall y: Item :: y in Insert(s, x) <==> y in multiset(Insert(s, x));
    assert forall y: Item :: y in s <==> y in multiset(s);
  }

  lemma DescendingCons(x: Item, s: seq<Item>)
    requires Descending(s) && forall y: Item :: y in s ==> Above(x, y)
    ensures Descending([x] + s)
  {
    hide Above;
    assert forall j :: 0 <= j < |s| ==> s[j] in s;
  }

  /** An item is above everything after what it is above, and whatever is not below it is above it. */
  lemma AboveOrder(s: seq<Item>, x: Item)
    requires Descending(s) && s != [] && s[0].serial != x.serial
    ensures Above(x, s[0]) ==> forall y: Item :: y in s ==> Above(x, y)
    ensures !Above(x, s[0]) ==> Above(s[0], x)
    ensures forall y: Item :: y in s[1..] ==> Above(s[0], y)
  {
  }

  lemma {:induction false} InsertFacts(s: seq<Item>, x: Item)
    requires Descending(s) && Fresh(s, x)
    ensures Descending(Insert(s, x)) && multiset(Insert(s, x)) == multiset(s) + multiset{x}
  {
    hide Above;
    InsertAdds(s, x);
    if s != [] {
      AboveOrder(s, x);
      if Above(x, s[0]) {
        DescendingCons(x, s);
      } else {
        InsertFacts(s[1..], x);
        InsertMembers(s[1..], x);
        DescendingCons(s[0], Insert(s[1..], x));
      }
    }
  }

  lemma InMultiset(s: seq<Item>, t: seq<Item>)
    requires multiset(s) == multiset(t)
    ensures forall x :: x in s <==> x in t
  {
    assert forall x :: x in s <==> x in multiset(s);
    assert forall x :: x in t <==> x in multiset(t);
  }

  lemma NothingDescends()
    ensures Descending([])
  {
  }

  /** `Ranked` is a sort: a permutation of the stream, strictly descending. */
  lemma {:induction false} RankedFacts(stream: seq<Item>)
    requires Distinct(stream)
    ensures Descending(Ranked(stream)) && multiset(Ranked(stream)) == multiset(stream) && |Ranked(stream)| == |stream|
  {
    hide Above;
    hide Insert;
    hide Descending;
    if stream == [] {
      NothingDescends();
    } else {
      var n := |stream| - 1;
      RankedFacts(stream[..n]);
      InMultiset(Ranked(stream[..n]), stream[..n]);
      forall i | 0 <= i < |Ranked(stream[..n])| ensures Ranked(stream[..n])[i].serial != stream[n].serial {
        assert Ranked(stream[..n])[i] in stream[..n];
      }
      InsertFacts(Ranked(stream[..n]), stream[n]);
      assert stream == stream[..n] + [stream[n]];
    }
  }

  ghost predicate SameItems(s: seq<Item>, t: seq<Item>) {
    forall x: Item :: x in s <==> x in t
  }

  /** A strictly descending arrangement is unique. */
  lemma {:induction false} DescendingUnique(s: seq<Item>, t: seq<Item>)
    requires Descending(s) && Descending(t) && SameItems(s, t) && |s| == |t|
    ensures s == t
  {
    if s != [] {
      assert s[0] in t && t[0] in s;
      assert s[0] == t[0];
      forall x: Item ensures x in s[1..] <==> x in t[1..] {
        assert x in s <==> x == s[0] || x in s[1..];
        assert x in t <==> x == t[0] || x in t[1..];
      }
      DescendingUnique(s[1..], t[1..]);
    }
  }

  /** The best `n` after one more item: it pushes out the last of them, or changes nothing. */
  lemma {:induction false} TakeInsert(s: seq<Item>, x: Item, n: nat)
    requires Descending(s) && 1 <= n <= |s|
    ensures Insert(s, x)[..n] == if Above(x, s[n - 1]) then Insert(s[..n - 1], x) else s[..n]
    decreases n
  {
    if Above(x, s[0]) {
      AboveAll(s, x, n);
    } else if n > 1 {
      TakeInsert(s[1..], x, n - 1);
      hide Above;
      hide Descending;
      assert Insert(s, x) == [s[0]] + Insert(s[1..], x);
      assert Insert(s, x)[..n] == [s[0]] + Insert(s[1..], x)[..n - 1];
      assert s[1..][..n - 2] == s[..n - 1][1..] && s[1..][n - 2] == s[n - 1];
      assert s[..n] == [s[0]] + s[1..][..n - 1];
    }
  }

  lemma AboveAll(s: seq<Item>, x: Item, n: nat)
    requires Descending(s) && 1 <= n <= |s| && Above(x, s[0])
    ensures Above(x, s[n - 1]) && Insert(s, x)[..n] == Insert(s[..n - 1], x)
  {
    assert n > 1 ==> Above(s[0], s[n - 1]) && s[..n - 1][0] == s[0];
  }

  // ---- The heap ----

  /** All that `heapq` promises of the order inside its list. */
  ghost predicate LeastFirst(h: seq<Item>) {
    forall i :: 0 < i < |h| ==> Above(h[i], h[0])
  }

  method HeapPush(h: seq<Item>, x: Item) returns (r: seq<Item>)
    requires LeastFirst(h) && Distinct(h) && Fresh(h, x)
    ensures LeastFirst(r) && Distinct(r) && |r| == |h| + 1 && forall y: Item :: y in r <==> y in h || y == x
  {
    if h == [] || Above(h[0], x) { r := [x] + h; } else { r := h + [x]; }
  }

  method LeastOf(h: seq<Item>) returns (least: nat)
    requires h != [] && Distinct(h)
    ensures least < |h| && forall j :: 0 <= j < |h| && j != least ==> Above(h[j], h[least])
  {
    least := 0;
    for i := 0 to |h|
      invariant 0 <= least < |h| && (least < i || least == 0)
      invariant forall j :: 0 <= j < i && j != least ==> Above(h[j], h[least])
    {
      if Above(h[least], h[i]) { least := i; }
    }
  }

  method HeapReplace(h: seq<Item>, x: Item) returns (r: seq<Item>)
    requires h != [] && Distinct(h) && Fresh(h, x)
    ensures LeastFirst(r) && Distinct(r) && |r| == |h|
    ensures forall y: Item :: y in r <==> (y in h && y != h[0]) || y == x
  {
    hide Above;
    var rest := h[1..] + [x];
    var least := LeastOf(rest);
    r := rest[least := rest[0]][0 := rest[least]];
    Swapped(rest, least);
    assert forall y: Item :: y in h <==> y == h[0] || y in h[1..];
  }

  lemma Swapped(h: seq<Item>, k: nat)
    requires k < |h| && Distinct(h)
    ensures var r := h[k := h[0]][0 := h[k]]; Distinct(r) && forall y: Item :: y in r <==> y in h
  {
    var r := h[k := h[0]][0 := h[k]];
    forall y: Item | y in h ensures y in r {
      var i :| 0 <= i < |h| && h[i] == y;
      assert r[if i == 0 then k else if i == k then 0 else i] == y;
    }
  }

  method Sorted(h: seq<Item>) returns (r: seq<Item>)
    requires Distinct(h)
    ensures Descending(r) && SameItems(r, h) && |r| == |h|
  {
    r := Ranked(h);
    RankedFacts(h);
    InMultiset(r, h);
  }

  // ---- Offering ----

  /** The best `limit` of a stream, best first. */
  function BestOf(stream: seq<Item>, limit: nat): seq<Item> {
    Take(Ranked(stream), limit)
  }

  /** The heap holds the best of what was offered, in some order with the least first. */
  ghost predicate Holds(heap: seq<Item>, offered: seq<Item>, limit: nat) {
    LeastFirst(heap) && Distinct(heap) && |heap| == |BestOf(offered, limit)| && SameItems(heap, BestOf(offered, limit))
  }

  ghost predicate Older(offered: seq<Item>, x: Item) {
    forall i :: 0 <= i < |offered| ==> offered[i].serial < x.serial
  }

  lemma RankedFresh(offered: seq<Item>, x: Item)
    requires Distinct(offered) && Older(offered, x)
    ensures Distinct(offered + [x]) && Fresh(Ranked(offered), x) && Ranked(offered + [x]) == Insert(Ranked(offered), x)
    ensures Descending(Ranked(offered)) && SameItems(Ranked(offered), offered) && |Ranked(offered)| == |offered|
  {
    RankedFacts(offered);
    InMultiset(Ranked(offered), offered);
    assert (offered + [x])[..|offered|] == offered;
    forall i | 0 <= i < |Ranked(offered)| ensures Ranked(offered)[i].serial != x.serial {
      assert Ranked(offered)[i] in offered;
    }
  }

  /** The root of the heap is the last of the best. */
  lemma RootIsLast(heap: seq<Item>, best: seq<Item>)
    requires LeastFirst(heap) && SameItems(heap, best) && Descending(best) && heap != [] && best != []
    ensures heap[0] == best[|best| - 1]
  {
    var last := best[|best| - 1];
    assert last in heap && heap[0] in best;
  }

  lemma PushedHolds(heap: seq<Item>, r: seq<Item>, x: Item, limit: nat, offered: seq<Item>)
    requires limit >= 1 && Distinct(offered) && Older(offered, x) && Holds(heap, offered, limit) && |heap| < limit
    requires LeastFirst(r) && Distinct(r) && |r| == |heap| + 1 && forall y: Item :: y in r <==> y in heap || y == x
    ensures Holds(r, offered + [x], limit)
  {
    RankedFresh(offered, x);
    InsertMembers(Ranked(offered), x);
    hide Ranked;
    hide Insert;
    hide Above;
  }

  lemma ReplacedHolds(heap: seq<Item>, r: seq<Item>, x: Item, limit: nat, offered: seq<Item>)
    requires limit >= 1 && Distinct(offered) && Older(offered, x) && Holds(heap, offered, limit) && |heap| >= limit
    requires LeastFirst(r) && Distinct(r) && |r| == |heap|
    requires if Above(x, heap[0]) then forall y: Item :: y in r <==> (y in heap && y != heap[0]) || y == x
             else r == heap
    ensures Holds(r, offered + [x], limit)
  {
    hide Ranked;
    hide Insert;
    hide Above;
    var sorted, best := Ranked(offered), BestOf(offered, limit);
    RankedFresh(offered, x);
    assert best == sorted[..limit] && Descending(best) && best[|best| - 1] == sorted[limit - 1];
    RootIsLast(heap, best);
    TakeInsert(sorted, x, limit);
    assert BestOf(offered + [x], limit) == Insert(sorted, x)[..limit];
    if Above(x, heap[0]) {
      InsertMembers(sorted[..limit - 1], x);
      DropLast(best);
      assert best[..limit - 1] == sorted[..limit - 1];
      var now := BestOf(offered + [x], limit);
      assert now == Insert(sorted[..limit - 1], x);
      forall y: Item ensures y in r <==> y in now {
        assert y in heap <==> y in best;
        assert y in sorted[..limit - 1] <==> y in best && y != heap[0];
      }
    }
    hide Descending;
    hide Older;
  }

  lemma DropLast(best: seq<Item>)
    requires best != [] && Descending(best)
    ensures forall y: Item :: y in best[..|best| - 1] <==> y in best && y != best[|best| - 1]
  {
    assert best == best[..|best| - 1] + [best[|best| - 1]];
  }

  /** One more scored window. */
  method Offer(heap: seq<Item>, x: Item, limit: nat, ghost offered: seq<Item>) returns (r: seq<Item>)
    requires limit >= 1 && Distinct(offered) && Older(offered, x) && Holds(heap, offered, limit)
    ensures Holds(r, offered + [x], limit)
  {
    RankedFresh(offered, x);
    forall i | 0 <= i < |heap| ensures heap[i].serial != x.serial { assert heap[i] in BestOf(offered, limit); }
    if |heap| < limit {
      r := HeapPush(heap, x);
      PushedHolds(heap, r, x, limit, offered);
    } else {
      r := heap;
      if Above(x, heap[0]) { r := HeapReplace(heap, x); }
      ReplacedHolds(heap, r, x, limit, offered);
    }
  }

  /** The windows of the newest chapter. */
  function OfChapter(stream: seq<Item>, ordinal: int): seq<Item> {
    if stream == [] then []
    else
      var prior := OfChapter(stream[..|stream| - 1], ordinal);
      if stream[|stream| - 1].ordinal == ordinal then prior + [stream[|stream| - 1]] else prior
  }

  lemma {:induction false} ChapterFacts(stream: seq<Item>, ordinal: int)
    requires Distinct(stream)
    ensures Distinct(OfChapter(stream, ordinal))
    ensures forall x: Item :: x in OfChapter(stream, ordinal) <==> x in stream && x.ordinal == ordinal
  {
    if stream != [] {
      var n := |stream| - 1;
      ChapterFacts(stream[..n], ordinal);
      assert stream == stream[..n] + [stream[n]];
      forall i | 0 <= i < |OfChapter(stream[..n], ordinal)|
        ensures OfChapter(stream[..n], ordinal)[i].serial != stream[n].serial
      {
        assert OfChapter(stream[..n], ordinal)[i] in stream[..n];
      }
    }
  }

  lemma NothingHeld(limit: nat)
    ensures Holds([], [], limit)
  {
  }

  ghost predicate Before(offered: seq<Item>, serial: nat) {
    forall i :: 0 <= i < |offered| ==> offered[i].serial < serial
  }

  lemma NewIsFresh(offered: seq<Item>, x: Item)
    requires Distinct(offered) && Before(offered, x.serial)
    ensures Older(offered, x) && Before(offered + [x], x.serial + 1) && Distinct(offered + [x])
  {
  }

  lemma OneMoreOffered(offered: seq<Item>, x: Item, bookmark: int)
    requires Distinct(offered) && Before(offered, x.serial)
    ensures Older(offered, x) && Before(offered + [x], x.serial + 1) && Distinct(offered + [x])
    ensures Distinct(OfChapter(offered, bookmark)) && Older(OfChapter(offered, bookmark), x)
    ensures OfChapter(offered + [x], bookmark)
            == OfChapter(offered, bookmark) + if x.ordinal == bookmark then [x] else []
  {
    NewIsFresh(offered, x);
    ChapterFacts(offered, bookmark);
    assert (offered + [x])[..|offered|] == offered;
    hide Distinct;
    var chapter := OfChapter(offered, bookmark);
    assert OfChapter(offered + [x], bookmark) == chapter + if x.ordinal == bookmark then [x] else [];
    hide OfChapter;
    forall i | 0 <= i < |chapter| ensures chapter[i].serial < x.serial {
      assert chapter[i] in offered;
    }
  }

  class WindowHeaps {
    const bookmark: int
    var serial: nat
    var candidates: seq<Item>
    var recent: seq<Item>
    ghost var offered: seq<Item>

    ghost predicate Valid()
      reads this
    {
      && Distinct(offered) && Before(offered, serial)
      && Holds(candidates, offered, CANDIDATE_LIMIT)
      && Holds(recent, OfChapter(offered, bookmark), RECENT_LIMIT)
    }

    constructor (bookmark: int)
      ensures Valid() && offered == [] && serial == 0 && this.bookmark == bookmark
    {
      this.bookmark, serial, candidates, recent, offered := bookmark, 0, [], [], [];
      NothingHeld(CANDIDATE_LIMIT);
      NothingHeld(RECENT_LIMIT);
    }

    /** Scores a window, whether or not it is offered: the serial moves on. */
    method Candidate(quality: Quality, text: string, chapter: string, ordinal: int, start: nat) returns (item: Item)
      requires Valid()
      modifies this`serial
      ensures Valid() && serial == old(serial) + 1
      ensures item == Item(quality, old(serial), start, start + |text|, chapter, ordinal, text)
    {
      item := Item(quality, serial, start, start + |text|, chapter, ordinal, text);
      serial := serial + 1;
    }

    /** Empty windows are not scored, and windows that share no word are scored but not kept. */
    method OfferWindow(quality: Quality, text: string, chapter: string, ordinal: int, start: nat)
      requires Valid()
      modifies this
      ensures Valid() && serial == old(serial) + if text == "" then 0 else 1
      ensures offered == if text == "" || quality.shared == 0 then old(offered)
                         else old(offered) + [Item(quality, old(serial), start, start + |text|, chapter, ordinal, text)]
    {
      hide Holds;
      hide Before;
      hide Older;
      hide Distinct;
      if text == "" { return; }
      var item := Candidate(quality, text, chapter, ordinal, start);
      if quality.shared == 0 { return; }
      OneMoreOffered(offered, item, bookmark);
      hide OfChapter;
      if ordinal == bookmark { recent := Offer(recent, item, RECENT_LIMIT, OfChapter(offered, bookmark)); }
      candidates := Offer(candidates, item, CANDIDATE_LIMIT, offered);
      offered := offered + [item];
    }

    /** The heap sorted in reverse is the best 64 of everything offered. */
    method Lexical() returns (r: seq<Item>)
      requires Valid()
      ensures r == BestOf(offered, CANDIDATE_LIMIT)
    {
      r := Sorted(candidates);
      RankedFacts(offered);
      DescendingUnique(r, BestOf(offered, CANDIDATE_LIMIT));
    }

    /** The newest chapter's heap is the best 4 of that chapter. */
    method Recent() returns (r: seq<Item>)
      requires Valid()
      ensures r == BestOf(OfChapter(offered, bookmark), RECENT_LIMIT)
    {
      r := Sorted(recent);
      ChapterFacts(offered, bookmark);
      RankedFacts(OfChapter(offered, bookmark));
      DescendingUnique(r, BestOf(OfChapter(offered, bookmark), RECENT_LIMIT));
    }
  }

  // ---- The final selection ----

  /** An earlier excerpt makes a later one redundant: the same words of the chapter, or a wider excerpt of it. */
  predicate Covers(kept: Item, x: Item) {
    kept.chapter == x.chapter && (kept.text == x.text || (kept.start <= x.start && x.end <= kept.end))
  }

  predicate Covered(selected: seq<Item>, x: Item) {
    exists i :: 0 <= i < |selected| && Covers(selected[i], x)
  }

  ghost predicate Irredundant(selected: seq<Item>) {
    forall i, j :: 0 <= i < j < |selected| ==> !Covers(selected[i], selected[j])
  }

  /** `selected` are the items at increasing positions below `n`. */
  ghost predicate TakenAt(items: seq<Item>, selected: seq<Item>, at: seq<nat>, n: nat)
    requires n <= |items|
  {
    && |selected| == |at| && (forall i :: 0 <= i < |at| ==> at[i] < n && selected[i] == items[at[i]])
    && forall i, j :: 0 <= i < j < |at| ==> at[i] < at[j]
  }

  ghost predicate Redundant(items: seq<Item>, at: seq<nat>, m: nat)
    requires m < |items|
  {
    exists i :: 0 <= i < |at| && at[i] < m && Covers(items[at[i]], items[m])
  }

  /** Whatever was passed over before position `n` is covered by something taken earlier. */
  ghost predicate OnlyRedundantSkipped(items: seq<Item>, at: seq<nat>, n: nat)
    requires n <= |items|
  {
    forall m :: 0 <= m < n && m !in at ==> Redundant(items, at, m)
  }

  lemma TakeOne(items: seq<Item>, selected: seq<Item>, at: seq<nat>, n: nat)
    requires n < |items| && TakenAt(items, selected, at, n) && Irredundant(selected)
             && OnlyRedundantSkipped(items, at, n)
    requires !Covered(selected, items[n])
    ensures TakenAt(items, selected + [items[n]], at + [n], n + 1) && Irredundant(selected + [items[n]])
    ensures OnlyRedundantSkipped(items, at + [n], n + 1)
  {
    hide Covers;
    forall m | 0 <= m < n + 1 && m !in at + [n] ensures Redundant(items, at + [n], m) {
      assert m !in at && (at + [n])[|at|] == n;
      assert Redundant(items, at, m);
      var i :| 0 <= i < |at| && at[i] < m && Covers(items[at[i]], items[m]);
      assert (at + [n])[i] == at[i];
    }
  }

  /** Takes items in order, skipping what is covered, until the limit; `at` are the positions taken. */
  method FillSelection(items: seq<Item>, limit: nat) returns (selected: seq<Item>, ghost at: seq<nat>)
    requires limit >= 1
    ensures |selected| <= limit && TakenAt(items, selected, at, |items|) && Irredundant(selected)
    ensures OnlyRedundantSkipped(items, at, if |at| < limit then |items| else at[limit - 1])
  {
    hide Covers;
    selected, at := [], [];
    for n := 0 to |items|
      invariant |selected| < limit && TakenAt(items, selected, at, n)
      invariant Irredundant(selected) && OnlyRedundantSkipped(items, at, n)
    {
      if !Covered(selected, items[n]) {
        TakeOne(items, selected, at, n);
        selected, at := selected + [items[n]], at + [n];
        if |selected| == limit { return; }
      } else {
        var i :| 0 <= i < |selected| && Covers(selected[i], items[n]);
        assert at[i] < n && Covers(items[at[i]], items[n]);
      }
    }
  }
}
