/**
 Greedy in-order batching: the embedding, answer-review and recap-proof loops. Each closes a batch only
 when the next item no longer fits, and no in-order partition under the same limits has fewer batches.
 */
module Batching {
  import opened Counting
  import opened Sequences
  import opened Wrappers

  /** An order-preserving partition into nonempty batches that respect the limits. */
  ghost predicate Partition<T(!new)>(items: seq<T>, batches: seq<seq<T>>, ok: seq<T> -> bool) {
    Flatten(batches) == items && forall i :: 0 <= i < |batches| ==> batches[i] != [] && ok(batches[i])
  }

  /** No batch could have taken the first item of the next one. */
  ghost predicate Maximal<T(!new)>(batches: seq<seq<T>>, ok: seq<T> -> bool) {
    forall i :: 0 <= i < |batches| - 1 ==> Overflows(batches, i, ok)
  }

  ghost predicate Overflows<T(!new)>(batches: seq<seq<T>>, i: nat, ok: seq<T> -> bool)
    requires i + 1 < |batches|
  {
    batches[i + 1] != [] && !ok(batches[i] + [batches[i + 1][0]])
  }

  /** Any contiguous part of a batch within the limits is within the limits. */
  ghost predicate Hereditary<T(!new)>(ok: seq<T> -> bool) {
    forall b: seq<T>, lo, hi :: 0 <= lo < hi <= |b| && ok(b) ==> ok(b[lo..hi])
  }

  /** The greedy batches of a list are no more than any batches of a list that ends with it. */
  lemma {:induction false} GreedyStaysAhead<T(!new)>(before: seq<T>, items: seq<T>, greedy: seq<seq<T>>,
                                                     other: seq<seq<T>>, ok: seq<T> -> bool)
    requires Hereditary(ok) && Partition(items, greedy, ok) && Maximal(greedy, ok)
             && Partition(before + items, other, ok)
    ensures |greedy| <= |other|
    decreases |other|
  {
    if greedy != [] {
      assert other != [];
      var rest := Flatten(other[1..]);
      assert other[0] + rest == before + items;
      assert rest == (before + items)[|other[0]|..];
      if |before| >= |other[0]| {
        assert rest == before[|other[0]|..] + items;
        GreedyStaysAhead(before[|other[0]|..], items, greedy, other[1..], ok);
      } else {
        GreedyTakesMore(before, items, greedy, other, ok);
        assert Maximal(greedy[1..], ok) by {
          assert forall i :: 0 <= i < |greedy[1..]| - 1 ==>
                 Overflows(greedy, i + 1, ok) ==> Overflows(greedy[1..], i, ok);
        }
        var gone := |before| + |greedy[0]| - |other[0]|;
        var after := Flatten(greedy[1..]);
        assert items == greedy[0] + after;
        assert rest == greedy[0][|greedy[0]| - gone..] + after;
        GreedyStaysAhead(greedy[0][|greedy[0]| - gone..], after, greedy[1..], other[1..], ok);
      }
    }
  }

  /** A longer first batch of the other partition shows that the greedy one could have taken another item. */
  lemma NextItemFits<T(!new)>(before: seq<T>, items: seq<T>, greedy: seq<seq<T>>, other: seq<seq<T>>,
                              ok: seq<T> -> bool)
    requires Hereditary(ok) && Partition(items, greedy, ok) && Partition(before + items, other, ok)
    requires greedy != [] && other != [] && |before| + |greedy[0]| < |other[0]|
    ensures |greedy| > 1 && greedy[1] != [] && ok(greedy[0] + [greedy[1][0]])
  {
    var g, after := |greedy[0]|, Flatten(greedy[1..]);
    assert items == greedy[0] + after;
    assert other[0] + Flatten(other[1..]) == before + items;
    assert after != [] && |greedy| > 1;
    assert greedy[1..][0] == greedy[1];
    assert after == greedy[1] + Flatten(greedy[1..][1..]);
    var part := other[0][|before|..|before| + g + 1];
    assert part == (before + items)[|before|..|before| + g + 1];
    assert part == greedy[0] + [greedy[1][0]];
  }

  /** The first greedy batch ends no earlier than the first other batch. */
  lemma GreedyTakesMore<T(!new)>(before: seq<T>, items: seq<T>, greedy: seq<seq<T>>, other: seq<seq<T>>,
                                 ok: seq<T> -> bool)
    requires Hereditary(ok) && Partition(items, greedy, ok) && Maximal(greedy, ok)
             && Partition(before + items, other, ok)
    requires greedy != [] && other != []
    ensures |before| + |greedy[0]| >= |other[0]|
  {
    assert |greedy| > 1 ==> Overflows(greedy, 0, ok);
    if |before| + |greedy[0]| < |other[0]| {
      NextItemFits(before, items, greedy, other, ok);
      assert false;
    }
  }

  /** No order-preserving partition within the limits has fewer batches. */
  ghost predicate Fewest<T(!new)>(items: seq<T>, batches: seq<seq<T>>, ok: seq<T> -> bool) {
    forall other: seq<seq<T>> :: Partition(items, other, ok) ==> |batches| <= |other|
  }

  lemma GreedyIsFewest<T(!new)>(items: seq<T>, greedy: seq<seq<T>>, ok: seq<T> -> bool)
    requires Hereditary(ok) && Partition(items, greedy, ok) && Maximal(greedy, ok)
    ensures Fewest(items, greedy, ok)
  {
    assert [] + items == items;
    forall other: seq<seq<T>> | Partition(items, other, ok) ensures |greedy| <= |other| {
      GreedyStaysAhead([], items, greedy, other, ok);
    }
  }

  /** The state of a batching loop: the batches closed so far and the one being filled. */
  ghost predicate Filling<T(!new)>(items: seq<T>, n: nat, batches: seq<seq<T>>, pending: seq<T>, ok: seq<T> -> bool)
    requires n <= |items|
  {
    && Flatten(batches) + pending == items[..n] && (pending == [] ==> batches == [])
    && (forall i :: 0 <= i < |batches| ==> batches[i] != [] && ok(batches[i]))
    && (pending != [] ==> ok(pending)) && Maximal(batches + [pending], ok) == (pending != [] || n == 0)
  }

  lemma NothingFilled<T(!new)>(items: seq<T>, ok: seq<T> -> bool)
    ensures Filling(items, 0, [], [], ok)
  {
  }

  lemma TakeItem<T(!new)>(items: seq<T>, n: nat, batches: seq<seq<T>>, pending: seq<T>, ok: seq<T> -> bool)
    requires n < |items| && Filling(items, n, batches, pending, ok) && ok(pending + [items[n]])
    ensures Filling(items, n + 1, batches, pending + [items[n]], ok)
  {
    var p := pending + [items[n]];
    assert items[..n + 1] == items[..n] + [items[n]];
    assert Flatten(batches) + p == (Flatten(batches) + pending) + [items[n]];
    var was, now := batches + [pending], batches + [p];
    forall i | 0 <= i < |now| - 1 ensures Overflows(now, i, ok) {
      assert Overflows(was, i, ok);
      assert now[i] == was[i] && (i + 1 < |batches| ==> now[i + 1] == was[i + 1]);
      assert i + 1 == |batches| ==> now[i + 1][0] == was[i + 1][0];
    }
  }

  lemma CloseBatch<T(!new)>(items: seq<T>, n: nat, batches: seq<seq<T>>, pending: seq<T>, ok: seq<T> -> bool)
    requires n < |items| && Filling(items, n, batches, pending, ok) && pending != []
    requires !ok(pending + [items[n]]) && ok([items[n]])
    ensures Filling(items, n + 1, batches + [pending], [items[n]], ok)
  {
    var b := batches + [pending];
    FlattenSnoc(batches, pending);
    assert items[..n + 1] == items[..n] + [items[n]];
    var now := b + [[items[n]]];
    forall i | 0 <= i < |now| - 1 ensures Overflows(now, i, ok) {
      assert i < |batches| ==> now[i] == b[i] && now[i + 1] == b[i + 1] && Overflows(b, i, ok);
    }
  }

  lemma FinishBatches<T(!new)>(items: seq<T>, batches: seq<seq<T>>, pending: seq<T>, ok: seq<T> -> bool)
    requires Filling(items, |items|, batches, pending, ok)
    ensures var all := if pending == [] then batches else batches + [pending];
            Partition(items, all, ok) && Maximal(all, ok)
  {
    assert items[..|items|] == items;
    FlattenSnoc(batches, pending);
  }

  // ---- Sizes ----

  function Sum<T(!new)>(b: seq<T>, size: T -> nat): nat {
    if b == [] then 0 else Sum(b[..|b| - 1], size) + size(b[|b| - 1])
  }

  lemma SumSnoc<T(!new)>(b: seq<T>, x: T, size: T -> nat)
    ensures Sum(b + [x], size) == Sum(b, size) + size(x)
  {
    assert (b + [x])[..|b|] == b;
  }

  lemma {:induction false} SumConcat<T(!new)>(a: seq<T>, b: seq<T>, size: T -> nat)
    ensures Sum(a + b, size) == Sum(a, size) + Sum(b, size)
  {
    if b == [] {
      assert a + b == a;
    } else {
      var n := |b| - 1;
      SumConcat(a, b[..n], size);
      assert a + b == (a + b[..n]) + [b[n]];
      SumSnoc(a + b[..n], b[n], size);
    }
  }

  lemma SumOfPart<T(!new)>(b: seq<T>, lo: nat, hi: nat, size: T -> nat)
    requires lo <= hi <= |b|
    ensures Sum(b[lo..hi], size) <= Sum(b, size)
  {
    var front := b[..hi];
    assert b == front + b[hi..] && front == b[..lo] + b[lo..hi];
    SumConcat(front, b[hi..], size);
    SumConcat(b[..lo], b[lo..hi], size);
    hide Sum;
  }

  datatype BatchError = CannotFit | InvalidAllowance | TooComplex(index: nat)

  // ---- Embedding ----

  const OVERHEAD := 32

  ghost function EmbeddingFits<T(!new)>(bytes: T -> nat, limit: int): seq<T> -> bool {
    (b: seq<T>) => OVERHEAD + Sum(b, bytes) <= limit
  }

  lemma EmbeddingFitsParts<T(!new)>(bytes: T -> nat, limit: int)
    ensures Hereditary(EmbeddingFits(bytes, limit))
  {
    forall b: seq<T>, lo, hi | 0 <= lo < hi <= |b| && EmbeddingFits(bytes, limit)(b)
      ensures EmbeddingFits(bytes, limit)(b[lo..hi])
    {
      SumOfPart(b, lo, hi, bytes);
    }
  }

  lemma EmbeddingFitsNext<T(!new)>(batch: seq<T>, x: T, bytes: T -> nat, limit: int)
    ensures Sum(batch + [x], bytes) == Sum(batch, bytes) + bytes(x) && Sum([x], bytes) == bytes(x)
    ensures EmbeddingFits(bytes, limit)(batch + [x]) <==> OVERHEAD + Sum(batch, bytes) + bytes(x) <= limit
    ensures EmbeddingFits(bytes, limit)([x]) <==> OVERHEAD + bytes(x) <= limit
    ensures batch == [] ==> batch + [x] == [x]
  {
    SumSnoc(batch, x, bytes);
  }

  /** `bytes` is the length of a passage as it is sent, title included. */
  method EmbeddingBatches<T(!new)>(passages: seq<T>, bytes: T -> nat, limit: int)
    returns (r: Result<seq<seq<T>>, BatchError>)
    ensures r.Failure? <==>
            limit < OVERHEAD + 1 || exists i :: 0 <= i < |passages| && bytes(passages[i]) + OVERHEAD > limit
    ensures r.Success? ==>
            Partition(passages, r.value, EmbeddingFits(bytes, limit)) && Maximal(r.value, EmbeddingFits(bytes, limit))
    ensures r.Success? ==> Fewest(passages, r.value, EmbeddingFits(bytes, limit))
  {
    if limit < OVERHEAD + 1 { return Failure(CannotFit); }
    ghost var ok := EmbeddingFits(bytes, limit);
    var batches, batch, size := [], [], OVERHEAD;
    NothingFilled(passages, ok);
    assert Sum(batch, bytes) == 0;
    hide Filling;
    hide Sum;
    hide EmbeddingFits;
    hide Fewest;
    for n := 0 to |passages|
      invariant Filling(passages, n, batches, batch, ok) && size == OVERHEAD + Sum(batch, bytes)
      invariant forall i :: 0 <= i < n ==> bytes(passages[i]) + OVERHEAD <= limit
    {
      var length := bytes(passages[n]);
      if length + OVERHEAD > limit { return Failure(CannotFit); }
      EmbeddingFitsNext(batch, passages[n], bytes, limit);
      if batch != [] && size + length > limit {
        CloseBatch(passages, n, batches, batch, ok);
        batches := batches + [batch];
        batch, size := [], OVERHEAD;
      } else {
        TakeItem(passages, n, batches, batch, ok);
      }
      batch := batch + [passages[n]];
      size := size + length;
    }
    FinishBatches(passages, batches, batch, ok);
    if batch != [] { batches := batches + [batch]; }
    EmbeddingFitsParts(bytes, limit);
    GreedyIsFewest(passages, batches, ok);
    return Success(batches);
  }

  // ---- Answer review ----

  const CLAIMS_PER_REVIEW := 2

  function UnitLimit(maxOutput: int): int {
    var allowed := (maxOutput - 1024) / 384;
    var bounded := if allowed < 8 then allowed else 8;
    if bounded > 1 then bounded else 1
  }

  ghost function ReviewFits<T(!new)>(units: T -> nat, limit: int): seq<T> -> bool {
    (b: seq<T>) => |b| <= CLAIMS_PER_REVIEW && Sum(b, units) <= limit
  }

  lemma ReviewFitsParts<T(!new)>(units: T -> nat, limit: int)
    ensures Hereditary(ReviewFits(units, limit))
  {
    forall b: seq<T>, lo, hi | 0 <= lo < hi <= |b| && ReviewFits(units, limit)(b)
      ensures ReviewFits(units, limit)(b[lo..hi])
    {
      SumOfPart(b, lo, hi, units);
    }
  }

  lemma ReviewFitsNext<T(!new)>(pending: seq<T>, x: T, units: T -> nat, limit: int)
    ensures Sum(pending + [x], units) == Sum(pending, units) + units(x) && Sum([x], units) == units(x)
    ensures ReviewFits(units, limit)(pending + [x])
            <==> |pending| < CLAIMS_PER_REVIEW && Sum(pending, units) + units(x) <= limit
    ensures ReviewFits(units, limit)([x]) <==> units(x) <= limit
    ensures pending == [] ==> pending + [x] == [x]
  {
    SumSnoc(pending, x, units);
  }

  /** The state of the loop: a batching under the review's limits, with the units of the open batch added up. */
  ghost predicate Reviewing<T(!new)>(claims: seq<T>, n: nat, batches: seq<seq<T>>, pending: seq<T>, total: nat,
                                     units: T -> nat, limit: int)
  {
    && n <= |claims| && Filling(claims, n, batches, pending, ReviewFits(units, limit))
    && total == Sum(pending, units) && |pending| <= CLAIMS_PER_REVIEW
    && forall i :: 0 <= i < n ==> units(claims[i]) <= limit
  }

  lemma NothingReviewed<T(!new)>(claims: seq<T>, units: T -> nat, limit: int)
    ensures Reviewing(claims, 0, [], [], 0, units, limit)
  {
    NothingFilled(claims, ReviewFits(units, limit));
  }

  lemma UnitsWithin<T(!new)>(claims: seq<T>, n: nat, batches: seq<seq<T>>, pending: seq<T>, total: nat,
                             units: T -> nat, limit: int)
    requires Reviewing(claims, n, batches, pending, total, units, limit)
    ensures n <= |claims| && |pending| <= CLAIMS_PER_REVIEW
    ensures forall i :: 0 <= i < n ==> units(claims[i]) <= limit
  {
  }

  lemma CloseReview<T(!new)>(claims: seq<T>, n: nat, batches: seq<seq<T>>, pending: seq<T>, total: nat,
                             units: T -> nat, limit: int)
    requires Reviewing(claims, n, batches, pending, total, units, limit) && n < |claims|
    requires pending != [] && units(claims[n]) <= limit
    requires |pending| == CLAIMS_PER_REVIEW || total + units(claims[n]) > limit
    ensures Reviewing(claims, n + 1, batches + [pending], [] + [claims[n]], units(claims[n]), units, limit)
  {
    ReviewFitsNext(pending, claims[n], units, limit);
    CloseBatch(claims, n, batches, pending, ReviewFits(units, limit));
    assert [] + [claims[n]] == [claims[n]];
    hide Filling;
    hide Sum;
    hide ReviewFits;
  }

  lemma TakeClaim<T(!new)>(claims: seq<T>, n: nat, batches: seq<seq<T>>, pending: seq<T>, total: nat,
                           units: T -> nat, limit: int)
    requires Reviewing(claims, n, batches, pending, total, units, limit) && n < |claims| && units(claims[n]) <= limit
    requires pending == [] || (|pending| < CLAIMS_PER_REVIEW && total + units(claims[n]) <= limit)
    ensures Reviewing(claims, n + 1, batches, pending + [claims[n]], total + units(claims[n]), units, limit)
  {
    ReviewFitsNext(pending, claims[n], units, limit);
    TakeItem(claims, n, batches, pending, ReviewFits(units, limit));
    hide Filling;
    hide Sum;
    hide ReviewFits;
  }

  lemma FinishClaims<T(!new)>(claims: seq<T>, batches: seq<seq<T>>, pending: seq<T>, total: nat,
                              units: T -> nat, limit: int)
    requires Reviewing(claims, |claims|, batches, pending, total, units, limit)
    ensures var all := if pending == [] then batches else batches + [pending];
            && (forall i :: 0 <= i < |claims| ==> units(claims[i]) <= limit)
            && Partition(claims, all, ReviewFits(units, limit)) && Maximal(all, ReviewFits(units, limit))
            && Fewest(claims, all, ReviewFits(units, limit))
  {
    var all, ok := if pending == [] then batches else batches + [pending], ReviewFits(units, limit);
    FinishBatches(claims, batches, pending, ok);
    ReviewFitsParts(units, limit);
    GreedyIsFewest(claims, all, ok);
    hide *;
    assert Reviewing(claims, |claims|, batches, pending, total, units, limit);
    UnitsWithin(claims, |claims|, batches, pending, total, units, limit);
  }

  /** A claim that alone has too many units asks for a smaller draft; no claim is split. */
  method EvidenceReviewBatches<T(!new)>(claims: seq<T>, units: T -> nat, maxOutput: int)
    returns (r: Result<seq<seq<T>>, BatchError>)
    ensures r == Failure(InvalidAllowance) <==> maxOutput < 1
    ensures maxOutput >= 1 && r.Failure? ==>
              r.error.TooComplex? && r.error.index < |claims| && units(claims[r.error.index]) > UnitLimit(maxOutput)
              && forall i :: 0 <= i < r.error.index ==> units(claims[i]) <= UnitLimit(maxOutput)
    ensures r.Success? ==>
              && (forall i :: 0 <= i < |claims| ==> units(claims[i]) <= UnitLimit(maxOutput))
              && Partition(claims, r.value, ReviewFits(units, UnitLimit(maxOutput)))
              && Maximal(r.value, ReviewFits(units, UnitLimit(maxOutput)))
              && Fewest(claims, r.value, ReviewFits(units, UnitLimit(maxOutput)))
  {
    hide *;
    if maxOutput < 1 { return Failure(InvalidAllowance); }
    var limit := UnitLimit(maxOutput);
    var batches, pending, total: nat := [], [], 0;
    NothingReviewed(claims, units, limit);
    for n := 0 to |claims|
      invariant Reviewing(claims, n, batches, pending, total, units, limit)
    {
      var count := units(claims[n]);
      UnitsWithin(claims, n, batches, pending, total, units, limit);
      if count > limit { return Failure(TooComplex(n)); }
      if pending != [] && (|pending| == CLAIMS_PER_REVIEW || total + count > limit) {
        CloseReview(claims, n, batches, pending, total, units, limit);
        batches := batches + [pending];
        pending, total := [], 0;
      } else {
        TakeClaim(claims, n, batches, pending, total, units, limit);
      }
      pending := pending + [claims[n]];
      total := total + count;
    }
    FinishClaims(claims, batches, pending, total, units, limit);
    if pending != [] { batches := batches + [pending]; }
    return Success(batches);
  }

  // ---- Recap proof ----

  const CLAIMS_PER_PROOF := 3
  const SOURCES_PER_PROOF := 6

  /** A recap sentence, the sources selected for it and the number of its units. */
  datatype RecapClaim = RecapClaim(text: string, sources: seq<nat>, units: nat)

  function UnitsOf(claim: RecapClaim): nat {
    claim.units
  }

  function SourcesOf(b: seq<RecapClaim>): set<nat> {
    set i, s | 0 <= i < |b| && s in b[i].sources :: s
  }

  /** A lone claim is always proved, however many units or sources it has. */
  ghost function ProofFits(limit: int): seq<RecapClaim> -> bool {
    (b: seq<RecapClaim>) =>
      |b| == 1 || (|b| <= CLAIMS_PER_PROOF && |SourcesOf(b)| <= SOURCES_PER_PROOF && Sum(b, UnitsOf) <= limit)
  }

  lemma ProofFitsParts(limit: int)
    ensures Hereditary(ProofFits(limit))
  {
    forall b: seq<RecapClaim>, lo, hi | 0 <= lo < hi <= |b| && ProofFits(limit)(b) ensures ProofFits(limit)(b[lo..hi]) {
      SumOfPart(b, lo, hi, UnitsOf);
      assert SourcesOf(b[lo..hi]) <= SourcesOf(b);
      SubsetSize(SourcesOf(b[lo..hi]), SourcesOf(b));
    }
  }

  function Elements(s: seq<nat>): set<nat> {
    set x | x in s
  }

  /** The keys of a dictionary built from the first list and then the second. */
  method Merge(selected: seq<nat>, own: seq<nat>) returns (combined: seq<nat>)
    requires NoRepeats(selected)
    ensures NoRepeats(combined) && selected <= combined && Elements(combined) == Elements(selected) + Elements(own)
  {
    combined := selected;
    for i := 0 to |own|
      invariant NoRepeats(combined) && selected <= combined
                && Elements(combined) == Elements(selected) + Elements(own[..i])
    {
      assert own[..i + 1] == own[..i] + [own[i]];
      assert Elements(own[..i + 1]) == Elements(own[..i]) + {own[i]};
      if own[i] !in combined {
        assert Elements(combined + [own[i]]) == Elements(combined) + {own[i]};
        combined := combined + [own[i]];
      }
    }
    assert own[..|own|] == own;
  }

  lemma {:induction false} CountOfNoRepeats(s: seq<nat>)
    requires NoRepeats(s)
    ensures |Elements(s)| == |s|
  {
    if s != [] {
      CountOfNoRepeats(s[..|s| - 1]);
      assert Elements(s) == Elements(s[..|s| - 1]) + {s[|s| - 1]};
    }
  }

  lemma SourcesSnoc(b: seq<RecapClaim>, claim: RecapClaim)
    ensures SourcesOf(b + [claim]) == SourcesOf(b) + Elements(claim.sources)
  {
    var c := b + [claim];
    assert c[|b|] == claim && forall i :: 0 <= i < |b| ==> c[i] == b[i];
    forall s | s in SourcesOf(b) + Elements(claim.sources) ensures s in SourcesOf(c) {
      if s in SourcesOf(b) { var i :| 0 <= i < |b| && s in b[i].sources; assert s in c[i].sources; }
    }
  }

  /** The sources handed to a proof are exactly those of its claims, each once. */
  ghost predicate SourcesMatch(batches: seq<seq<RecapClaim>>, selections: seq<seq<nat>>) {
    |selections| == |batches| && forall i ::
      0 <= i < |batches| ==> NoRepeats(selections[i]) && Elements(selections[i]) == SourcesOf(batches[i])
  }

  lemma ProofSizes(pending: seq<RecapClaim>, claim: RecapClaim, combined: seq<nat>)
    requires NoRepeats(combined) && Elements(combined) == SourcesOf(pending) + Elements(claim.sources)
    ensures Elements(combined) == SourcesOf(pending + [claim]) && |SourcesOf(pending + [claim])| == |combined|
    ensures Sum(pending + [claim], UnitsOf) == Sum(pending, UnitsOf) + claim.units
  {
    hide Sum;
    SumSnoc(pending, claim, UnitsOf);
    SourcesSnoc(pending, claim);
    CountOfNoRepeats(combined);
  }

  /** What taking one more claim does to the sources, the units and the limits of a batch. */
  lemma ProofFitsNext(pending: seq<RecapClaim>, claim: RecapClaim, combined: seq<nat>, limit: int)
    requires NoRepeats(combined) && Elements(combined) == SourcesOf(pending) + Elements(claim.sources)
    ensures Elements(combined) == SourcesOf(pending + [claim])
    ensures Sum(pending + [claim], UnitsOf) == Sum(pending, UnitsOf) + claim.units
    ensures ProofFits(limit)([claim])
    ensures pending == [] ==> pending + [claim] == [claim]
    ensures pending != [] ==>
              (ProofFits(limit)(pending + [claim]) <==>
                 |combined| <= SOURCES_PER_PROOF && |pending| < CLAIMS_PER_PROOF
                   && Sum(pending, UnitsOf) + claim.units <= limit)
  {
    hide Sum;
    hide SourcesOf;
    hide Elements;
    hide NoRepeats;
    ProofSizes(pending, claim, combined);
  }

  lemma SourcesMatchSnoc(batches: seq<seq<RecapClaim>>, selections: seq<seq<nat>>, pending: seq<RecapClaim>,
                         selected: seq<nat>)
    requires SourcesMatch(batches, selections) && NoRepeats(selected) && Elements(selected) == SourcesOf(pending)
    ensures SourcesMatch(batches + [pending], selections + [selected])
  {
  }

  lemma NoSources()
    ensures NoRepeats<nat>([]) && Elements([]) == SourcesOf([]) && Sum([], UnitsOf) == 0 && SourcesMatch([], [])
  {
  }

  method ProofBatches(claims: seq<RecapClaim>, maxOutput: int)
    returns (batches: seq<seq<RecapClaim>>, selections: seq<seq<nat>>)
    ensures Partition(claims, batches, ProofFits(ProofLimit(maxOutput)))
            && Maximal(batches, ProofFits(ProofLimit(maxOutput)))
    ensures Fewest(claims, batches, ProofFits(ProofLimit(maxOutput))) && SourcesMatch(batches, selections)
  {
    hide Fewest;
    hide SourcesMatch;
    hide SourcesOf;
    hide Elements;
    hide NoRepeats;
    hide Filling;
    hide Sum;
    hide ProofFits;
    hide ProofLimit;
    hide Partition;
    hide Maximal;
    var limit := ProofLimit(maxOutput);
    ghost var ok := ProofFits(limit);
    var pending, selected, units := [], [], 0;
    batches, selections := [], [];
    NothingFilled(claims, ok);
    NoSources();
    for n := 0 to |claims|
      invariant Filling(claims, n, batches, pending, ok) && SourcesMatch(batches, selections)
      invariant units == Sum(pending, UnitsOf) && NoRepeats(selected) && Elements(selected) == SourcesOf(pending)
    {
      var claim := claims[n];
      var combined := Merge(selected, claim.sources);
      ProofFitsNext(pending, claim, combined, limit);
      if pending != [] && (|combined| > SOURCES_PER_PROOF || |pending| >= CLAIMS_PER_PROOF
                           || units + claim.units > limit) {
        CloseBatch(claims, n, batches, pending, ok);
        SourcesMatchSnoc(batches, selections, pending, selected);
        batches, selections := batches + [pending], selections + [selected];
        pending, selected, units := [], [], 0;
        combined := Merge(selected, claim.sources);
        ProofFitsNext(pending, claim, combined, limit);
      } else {
        TakeItem(claims, n, batches, pending, ok);
      }
      pending := pending + [claim];
      selected, units := combined, units + claim.units;
    }
    FinishBatches(claims, batches, pending, ok);
    SourcesMatchSnoc(batches, selections, pending, selected);
    if pending != [] { batches, selections := batches + [pending], selections + [selected]; }
    ProofFitsParts(limit);
    GreedyIsFewest(claims, batches, ok);
  }

  function ProofLimit(maxOutput: int): int {
    var allowed := (maxOutput - 512) / 140;
    if allowed > 1 then allowed else 1
  }

  /** No proof sees more than six sources, provided no single claim has more. */
  lemma ProofSources(claims: seq<RecapClaim>, batches: seq<seq<RecapClaim>>, selections: seq<seq<nat>>, limit: int,
                     i: nat)
    requires Partition(claims, batches, ProofFits(limit)) && SourcesMatch(batches, selections) && i < |batches|
    requires forall c :: c in batches[i] ==> |Elements(c.sources)| <= SOURCES_PER_PROOF
    ensures |selections[i]| <= SOURCES_PER_PROOF
    ensures Sum(batches[i], UnitsOf) > limit ==> |batches[i]| == 1
  {
    CountOfNoRepeats(selections[i]);
    if |batches[i]| == 1 {
      assert batches[i] == [] + [batches[i][0]];
      SourcesSnoc([], batches[i][0]);
    }
  }
}
