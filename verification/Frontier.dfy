/**
 The reading frontier: the position in the book becomes the whole number of chapters the reader has
 finished, kept as a high-water mark, and only what those chapters reveal is shown.
 */
module Frontier {
  import opened Wrappers
  import opened StoryMemory
  import opened BookmarkView
  import opened Ingestion
  import opened IngestionTheorems

  /** The positions of one chapter, `end` excluded. */
  datatype Bound = Bound(start: int, end: int)

  ghost predicate Bounds(bounds: seq<Bound>) {
    && (bounds != [] ==> bounds[0].start == 0)
    && (forall i :: 0 <= i < |bounds| ==> bounds[i].start < bounds[i].end)
    && forall i :: 0 <= i < |bounds| - 1 ==> bounds[i].end == bounds[i + 1].start
  }

  ghost predicate Measures(bounds: seq<Bound>, lengths: seq<int>) {
    |bounds| == |lengths| && forall i :: 0 <= i < |lengths| ==> bounds[i].end - bounds[i].start == lengths[i]
  }

  /** Fails with the number of the first chapter that has no length. */
  method ChapterBounds(lengths: seq<int>) returns (r: Result<seq<Bound>, nat>)
    ensures r.Failure? ==>
            1 <= r.error <= |lengths| && lengths[r.error - 1] <= 0
            && forall i :: 0 <= i < r.error - 1 ==> lengths[i] > 0
    ensures r.Success? ==> Bounds(r.value) && Measures(r.value, lengths)
  {
    var bounds: seq<Bound>, acc := [], 0;
    for i := 0 to |lengths|
      invariant |bounds| == i && Bounds(bounds) && acc == if i == 0 then 0 else bounds[i - 1].end
      invariant forall j :: 0 <= j < i ==> lengths[j] > 0 && bounds[j].end - bounds[j].start == lengths[j]
    {
      if lengths[i] <= 0 { return Failure(i + 1); }
      bounds := bounds + [Bound(acc, acc + lengths[i])];
      acc := acc + lengths[i];
    }
    return Success(bounds);
  }

  /** How many chapters end at or before a position. */
  function CfiToBookmark(position: int, bounds: seq<Bound>): (b: nat)
    ensures b <= |bounds|
  {
    if bounds == [] then 0
    else CfiToBookmark(position, bounds[..|bounds| - 1]) + if bounds[|bounds| - 1].end <= position then 1 else 0
  }

  function Max(a: int, b: int): int {
    if a > b then a else b
  }

  function HighWater(prior: int, position: int, bounds: seq<Bound>): int {
    Max(prior, CfiToBookmark(position, bounds))
  }

  lemma {:induction false} EndsIncrease(bounds: seq<Bound>, i: nat, j: nat)
    requires Bounds(bounds) && i < j < |bounds|
    ensures bounds[i].end <= bounds[j].start
    decreases j
  {
    if i < j - 1 { EndsIncrease(bounds, i, j - 1); }
  }

  /** The bookmark counts a prefix: a chapter is finished exactly when its ordinal is within the bookmark. */
  lemma {:induction false} BookmarkIsPrefix(position: int, bounds: seq<Bound>)
    requires Bounds(bounds)
    ensures forall i :: 0 <= i < |bounds| ==> (bounds[i].end <= position <==> i < CfiToBookmark(position, bounds))
  {
    if bounds != [] {
      var n := |bounds| - 1;
      assert Bounds(bounds[..n]);
      BookmarkIsPrefix(position, bounds[..n]);
      if bounds[n].end <= position {
        forall i | 0 <= i < n ensures bounds[i].end <= position { EndsIncrease(bounds, i, n); }
        if n > 0 { assert bounds[..n][n - 1] == bounds[n - 1]; }
      }
      assert forall i :: 0 <= i < n ==> bounds[..n][i] == bounds[i];
    }
  }

  /** A position further on never has a lower bookmark. */
  lemma {:induction false} BookmarkIsMonotone(p: int, q: int, bounds: seq<Bound>)
    requires p <= q
    ensures CfiToBookmark(p, bounds) <= CfiToBookmark(q, bounds)
  {
    if bounds != [] { BookmarkIsMonotone(p, q, bounds[..|bounds| - 1]); }
  }

  /** The chapter under the position is always the one right after the bookmark: it is held back whole. */
  method CurrentChapter(position: int, bounds: seq<Bound>) returns (chapter: nat)
    ensures 1 <= chapter <= |bounds| + 1
    ensures chapter <= |bounds| ==> bounds[chapter - 1].start <= position < bounds[chapter - 1].end
    ensures forall i :: 0 <= i < chapter - 1 ==> !(bounds[i].start <= position < bounds[i].end)
    ensures Bounds(bounds) && position >= 0 ==> chapter == CfiToBookmark(position, bounds) + 1
  {
    chapter := |bounds| + 1;
    for i := 0 to |bounds|
      invariant chapter == |bounds| + 1
      invariant forall j :: 0 <= j < i ==> !(bounds[j].start <= position < bounds[j].end)
    {
      if bounds[i].start <= position < bounds[i].end { chapter := i + 1; break; }
    }
    if Bounds(bounds) && position >= 0 { PendingIsNext(position, bounds, chapter); }
  }

  lemma PendingIsNext(position: int, bounds: seq<Bound>, chapter: nat)
    requires Bounds(bounds) && position >= 0 && 1 <= chapter <= |bounds| + 1
    requires chapter <= |bounds| ==> bounds[chapter - 1].start <= position < bounds[chapter - 1].end
    requires forall i :: 0 <= i < chapter - 1 ==> !(bounds[i].start <= position < bounds[i].end)
    ensures chapter == CfiToBookmark(position, bounds) + 1
  {
    BookmarkIsPrefix(position, bounds);
    var b := CfiToBookmark(position, bounds);
    if b < |bounds| {
      assert b > 0 ==> bounds[b - 1].end <= position;
      assert bounds[b].start <= position < bounds[b].end;
      forall i | 0 <= i < b ensures bounds[i].end <= bounds[b].start { EndsIncrease(bounds, i, b); }
    }
  }

  // ---- A session ----

  /** The stored bookmark after a list of reports. */
  function Session(prior: int, positions: seq<int>, bounds: seq<Bound>): int {
    if positions == [] then prior
    else HighWater(Session(prior, positions[..|positions| - 1], bounds), positions[|positions| - 1], bounds)
  }

  function Furthest(positions: seq<int>): int {
    if positions == [] then 0 else Max(Furthest(positions[..|positions| - 1]), positions[|positions| - 1])
  }

  lemma {:induction false} NothingFinishedAtZero(bounds: seq<Bound>, position: int)
    requires Bounds(bounds) && position <= 0
    ensures CfiToBookmark(position, bounds) == 0
  {
    BookmarkIsPrefix(position, bounds);
    if bounds != [] { assert bounds[0].end > 0; }
  }

  /** The high-water mark of a whole session is the bookmark of its furthest position. */
  lemma {:induction false} SessionIsFurthest(positions: seq<int>, bounds: seq<Bound>)
    requires Bounds(bounds)
    ensures Session(0, positions, bounds) == CfiToBookmark(Furthest(positions), bounds)
  {
    if positions == [] {
      NothingFinishedAtZero(bounds, 0);
    } else {
      var n := |positions| - 1;
      SessionIsFurthest(positions[..n], bounds);
      BookmarkIsMonotone(Furthest(positions[..n]), Furthest(positions), bounds);
      BookmarkIsMonotone(positions[n], Furthest(positions), bounds);
    }
  }

  /** Reports coalesced into the furthest of them lose nothing, whatever was stored before. */
  lemma {:induction false} CoalescingLosesNothing(prior: int, positions: seq<int>, bounds: seq<Bound>)
    requires Bounds(bounds) && prior >= 0
    ensures Session(prior, positions, bounds) == HighWater(prior, Furthest(positions), bounds)
  {
    if positions == [] {
      NothingFinishedAtZero(bounds, 0);
    } else {
      var n := |positions| - 1;
      CoalescingLosesNothing(prior, positions[..n], bounds);
      BookmarkIsMonotone(Furthest(positions[..n]), Furthest(positions), bounds);
      BookmarkIsMonotone(positions[n], Furthest(positions), bounds);
    }
  }

  // ---- What the reader is shown ----

  /** The chapters of the book carry the ordinals 1, 2, … in order, one for each bound. */
  ghost predicate Aligned(bounds: seq<Bound>, jobs: seq<Job>) {
    |bounds| == |jobs| && forall i :: 0 <= i < |jobs| ==> jobs[i].src.ordinal == i + 1
  }

  /** A fact visible at the session's bookmark comes from a chapter that ends at or before the furthest position. */
  lemma VisibleIsFinished<T>(r: Row<T>, positions: seq<int>, bounds: seq<Bound>)
    requires Bounds(bounds) && VisibleAt(r, Session(0, positions, bounds)) && 1 <= r.revealedAt <= |bounds|
    ensures bounds[r.revealedAt - 1].end <= Furthest(positions)
  {
    SessionIsFurthest(positions, bounds);
    BookmarkIsPrefix(Furthest(positions), bounds);
  }

  lemma AlignedPrefix(bounds: seq<Bound>, jobs: seq<Job>)
    requires Aligned(bounds, jobs) && jobs != []
    ensures var n := |jobs| - 1;
            n < |bounds| && Aligned(bounds[..n], jobs[..n]) && jobs[n].src.ordinal == n + 1
  {
  }

  lemma {:induction false} UpToIsPrefix(bounds: seq<Bound>, jobs: seq<Job>, b: nat)
    requires Aligned(bounds, jobs) && b <= |jobs|
    ensures UpTo(jobs, b) == jobs[..b]
  {
    hide Aligned;
    if jobs == [] {
    } else {
      var n := |jobs| - 1;
      AlignedPrefix(bounds, jobs);
      if b <= n {
        UpToIsPrefix(bounds[..n], jobs[..n], b);
        assert jobs[..n][..b] == jobs[..b];
      } else {
        UpToIsPrefix(bounds[..n], jobs[..n], n);
        UpToBeyond(bounds[..n], jobs[..n], b);
        assert jobs == jobs[..n] + [jobs[n]];
      }
    }
  }

  lemma {:induction false} UpToBeyond(bounds: seq<Bound>, jobs: seq<Job>, b: nat)
    requires Aligned(bounds, jobs) && b >= |jobs|
    ensures UpTo(jobs, b) == jobs
  {
    hide Aligned;
    if jobs == [] {
    } else {
      var n := |jobs| - 1;
      AlignedPrefix(bounds, jobs);
      UpToBeyond(bounds[..n], jobs[..n], b);
      assert jobs == jobs[..n] + [jobs[n]];
    }
  }

  /**
   From the position to the page: after any session, every read of the fully ingested book answers as if only
   the chapters that end at or before the furthest position had ever been ingested.
   */
  lemma NothingUnreadIsShown(tools: Tools, pin: Option<Pin>, jobs: seq<Job>, bounds: seq<Bound>, positions: seq<int>,
                             cosine: (seq<real>, seq<real>) -> real)
    requires InOrder(jobs) && Aligned(bounds, jobs) && Bounds(bounds)
    ensures var b := Session(0, positions, bounds);
            && 0 <= b <= |jobs| && (forall i :: 0 <= i < |jobs| ==> (bounds[i].end <= Furthest(positions) <==> i < b))
            && SameView(Run(tools, pin, jobs[..b]).store, Run(tools, pin, jobs).store, b, cosine)
            && Relationships(Run(tools, pin, jobs[..b]).store, b) == Relationships(Run(tools, pin, jobs).store, b)
  {
    hide SameView;
    hide Run;
    hide Relationships;
    SessionIsFurthest(positions, bounds);
    BookmarkIsPrefix(Furthest(positions), bounds);
    var b := Session(0, positions, bounds);
    UpToIsPrefix(bounds, jobs, b);
    NonInterference(tools, pin, jobs, b, cosine);
  }
}
