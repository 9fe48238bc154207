/** Numbered slices of a text: whatever the cuts, joining the slices gives the text back. */
module EvidenceText {
  import opened Sequences
  import opened Text
  import opened Wrappers

  // ---- Sentences ----

  predicate EndsSentence(c: char) {
    c == '.' || c == '!' || c == '?' || c == '\U{3002}' || c == '\U{FF01}' || c == '\U{FF1F}'
  }

  /** A cut lies between a sentence end and white space, and after every line break. */
  predicate IsCut(text: string, p: nat)
    requires 0 < p <= |text|
  {
    text[p - 1] == '\n' || (EndsSentence(text[p - 1]) && p < |text| && IsSpace(text[p]))
  }

  /** The pieces of the first `n` characters; the last piece is still growing. */
  function SentencesUpTo(text: string, n: nat): (r: seq<string>)
    requires n <= |text|
    ensures r != [] && Flatten(r) == text[..n]
  {
    if n == 0 then
      assert Flatten([""]) == "" + Flatten([]);
      [""]
    else
      var prior := SentencesUpTo(text, n - 1);
      var k := |prior| - 1;
      var grown := prior[k] + [text[n - 1]];
      assert text[..n] == text[..n - 1] + [text[n - 1]];
      FlattenSnoc(prior[..k], prior[k]);
      FlattenSnoc(prior[..k], grown);
      FlattenSnoc(prior[..k] + [grown], "");
      assert prior == prior[..k] + [prior[k]];
      if IsCut(text, n) then prior[..k] + [grown] + [""] else prior[..k] + [grown]
  }

  /** `split` at every cut. */
  function Sentences(text: string): (r: seq<string>)
    ensures r != [] && Flatten(r) == text
  {
    assert text[..|text|] == text;
    SentencesUpTo(text, |text|)
  }

  /** The piece is the text from `o` on: it begins with the text or after a cut, and no cut is inside it. */
  ghost predicate StandsAt(text: string, piece: string, o: nat) {
    && o + |piece| <= |text| && piece == text[o..o + |piece|] && (o > 0 ==> IsCut(text, o))
    && forall p :: o < p < o + |piece| ==> !IsCut(text, p)
  }

  lemma AfterCut(text: string, n: nat)
    requires n <= |text|
    ensures var r := SentencesUpTo(text, n); 0 < n && IsCut(text, n) ==> r[|r| - 1] == ""
  {
  }

  lemma GrownStands(text: string, n: nat, was: string, o: nat)
    requires 0 < n <= |text| && StandsAt(text, was, o) && o + |was| == n - 1
    requires 0 < n - 1 && IsCut(text, n - 1) ==> was == ""
    ensures StandsAt(text, was + [text[n - 1]], o)
  {
    assert text[o..n] == text[o..n - 1] + [text[n - 1]];
  }

  lemma PiecesStand(text: string, n: nat, front: seq<string>, was: string, r: seq<string>, k: nat)
    requires 0 < n <= |text| && |Flatten(front)| + |was| == n - 1
    requires r == front + [was + [text[n - 1]]] + (if IsCut(text, n) then [""] else []) && k < |r|
    requires k < |front| ==> StandsAt(text, front[k], |Flatten(front[..k])|)
    requires StandsAt(text, was, |Flatten(front)|) && (0 < n - 1 && IsCut(text, n - 1) ==> was == "")
    ensures StandsAt(text, r[k], |Flatten(r[..k])|)
  {
    var grown := was + [text[n - 1]];
    FlattenSnoc(front, grown);
    hide Flatten;
    GrownStands(text, n, was, |Flatten(front)|);
    if IsCut(text, n) { CutStands(text, n); }
    hide StandsAt;
    hide IsCut;
    if k < |front| {
      assert r[..k] == front[..k];
    } else if k == |front| {
      assert r[..k] == front;
    } else {
      assert r[..k] == front + [grown];
    }
  }

  lemma NextPieces(text: string, n: nat, front: seq<string>, was: string)
    requires 0 < n <= |text| && SentencesUpTo(text, n - 1) == front + [was]
    ensures SentencesUpTo(text, n) == front + [was + [text[n - 1]]] + (if IsCut(text, n) then [""] else [])
  {
    hide IsCut;
    hide Flatten;
    var prior := front + [was];
    assert prior[..|prior| - 1] == front && prior[|prior| - 1] == was;
  }

  lemma SentencesNext(text: string, n: nat, front: seq<string>, was: string)
    requires 0 < n <= |text| && SentencesUpTo(text, n - 1) == front + [was]
    ensures SentencesUpTo(text, n) == front + [was + [text[n - 1]]] + (if IsCut(text, n) then [""] else [])
    ensures |Flatten(front)| + |was| == n - 1
    ensures 0 < n - 1 && IsCut(text, n - 1) ==> was == ""
  {
    NextPieces(text, n, front, was);
    FlattenSnoc(front, was);
    AfterCut(text, n - 1);
    assert Flatten(SentencesUpTo(text, n - 1)) == text[..n - 1];
    hide SentencesUpTo;
    hide IsCut;
    hide Flatten;
    assert (front + [was])[|front + [was]| - 1] == was;
  }

  /** Each piece stands in the text behind those before it. */
  ghost predicate AllStand(text: string, pieces: seq<string>) {
    forall k :: 0 <= k < |pieces| ==> StandsAt(text, pieces[k], |Flatten(pieces[..k])|)
  }

  lemma AllGrownStand(text: string, n: nat, front: seq<string>, was: string, r: seq<string>)
    requires 0 < n <= |text| && |Flatten(front)| + |was| == n - 1 && AllStand(text, front + [was])
    requires r == front + [was + [text[n - 1]]] + (if IsCut(text, n) then [""] else [])
    requires 0 < n - 1 && IsCut(text, n - 1) ==> was == ""
    ensures AllStand(text, r)
  {
    hide IsCut;
    hide StandsAt;
    hide Flatten;
    var prior := front + [was];
    assert prior[|front|] == was && prior[..|front|] == front;
    forall k | 0 <= k < |front| ensures StandsAt(text, front[k], |Flatten(front[..k])|) {
      assert prior[k] == front[k] && prior[..k] == front[..k];
    }
    forall k | 0 <= k < |r| ensures StandsAt(text, r[k], |Flatten(r[..k])|) {
      PiecesStand(text, n, front, was, r, k);
    }
  }

  lemma {:induction false} SentencesStand(text: string, n: nat)
    requires n <= |text|
    ensures AllStand(text, SentencesUpTo(text, n))
  {
    hide AllStand;
    hide Flatten;
    if n == 0 {
      NothingStands(text);
    } else {
      var prior := SentencesUpTo(text, n - 1);
      var front, was := prior[..|prior| - 1], prior[|prior| - 1];
      assert prior == front + [was];
      SentencesNext(text, n, front, was);
      hide SentencesUpTo;
      SentencesStand(text, n - 1);
      AllGrownStand(text, n, front, was, SentencesUpTo(text, n));
    }
  }

  lemma NothingStands(text: string)
    ensures AllStand(text, [""])
  {
    assert Flatten([""][..0]) == "";
  }

  lemma CutStands(text: string, n: nat)
    requires 0 < n <= |text| && IsCut(text, n)
    ensures StandsAt(text, "", n)
  {
  }

  /** `s.rfind(" ", 0, hi)`. */
  function LastSpace(s: string, hi: nat): (r: int)
    requires hi <= |s|
    ensures -1 <= r < hi && (r >= 0 ==> s[r] == ' ') && forall k :: r < k < hi ==> s[k] != ' '
  {
    if hi == 0 then -1 else if s[hi - 1] == ' ' then hi - 1 else LastSpace(s, hi - 1)
  }

  // ---- Source passages ----

  const MAX_PASSAGES := 128

  function Target(length: nat): (t: nat)
    ensures t >= 1 && MAX_PASSAGES * t >= length && (t > 1 ==> MAX_PASSAGES * (t - 1) < length)
  {
    var t := (length + 127) / 128;
    if t > 1 then t else 1
  }

  function MaxSlice(target: nat): nat {
    if target > 512 then target else 512
  }

  /** Every piece so far is at least this long. */
  function Least(target: nat): nat {
    if MaxSlice(target) / 2 < target then MaxSlice(target) / 2 else target
  }

  predicate LongEnough(pieces: seq<string>, least: nat) {
    forall i :: 0 <= i < |pieces| ==> |pieces[i]| >= least
  }

  /** Where a passage may end: after a sentence, before a space, or where a long stretch offers neither. */
  ghost predicate GoodEnd(text: string, p: int, maxSlice: nat) {
    0 < p <= |text| && (p == |text| || IsCut(text, p) || text[p] == ' ' || HardCut(text, p, maxSlice))
  }

  /** The last `maxSlice` characters have no cut inside, and no space in their second half or right behind them. */
  ghost predicate HardCut(text: string, p: int, maxSlice: nat) {
    && maxSlice <= p < |text| && (forall k :: p - maxSlice < k < p ==> !IsCut(text, k))
    && forall k :: p - maxSlice + maxSlice / 2 <= k <= p ==> text[k] != ' '
  }

  /** The pieces, which begin at `o`, all end well. */
  ghost predicate EndWell(pieces: seq<string>, text: string, o: int, maxSlice: nat) {
    forall i :: 0 < i <= |pieces| ==> GoodEnd(text, o + |Flatten(pieces[..i])|, maxSlice)
  }

  lemma EndWellSnoc(pieces: seq<string>, piece: string, text: string, o: int, maxSlice: nat, p: int)
    requires EndWell(pieces, text, o, maxSlice) && p == o + |Flatten(pieces)| + |piece| && GoodEnd(text, p, maxSlice)
    ensures EndWell(pieces + [piece], text, o, maxSlice)
  {
    hide GoodEnd;
    var more := pieces + [piece];
    FlattenSnoc(pieces, piece);
    hide Flatten;
    forall i | 0 < i <= |more| ensures GoodEnd(text, o + |Flatten(more[..i])|, maxSlice) {
      if i <= |pieces| { assert more[..i] == pieces[..i]; } else { assert more[..i] == more; }
    }
  }

  lemma EndWellAppend(a: seq<string>, b: seq<string>, text: string, o: int, maxSlice: nat)
    requires EndWell(a, text, o, maxSlice) && EndWell(b, text, o + |Flatten(a)|, maxSlice)
    ensures EndWell(a + b, text, o, maxSlice)
  {
    var all := a + b;
    forall i | 0 < i <= |all| ensures GoodEnd(text, o + |Flatten(all[..i])|, maxSlice) {
      if i <= |a| {
        assert all[..i] == a[..i];
      } else {
        assert all[..i] == a + b[..i - |a|];
        FlattenAppend(a, b[..i - |a|]);
      }
    }
  }

  /** Without white space at its ends, the piece is shorter than `bound`. */
  ghost predicate ShortCore(piece: string, bound: nat) {
    exists i, j :: 0 <= i <= j <= |piece| && Blank(piece[..i]) && Blank(piece[j..]) && j - i < bound
  }

  ghost predicate ShortCores(pieces: seq<string>, bound: nat) {
    forall i :: 0 <= i < |pieces| ==> ShortCore(pieces[i], bound)
  }

  lemma BlankThenShort(a: string, b: string, bound: nat)
    requires Blank(a) && |b| < bound
    ensures ShortCore(a + b, bound)
  {
    assert (a + b)[..|a|] == a && (a + b)[|a + b|..] == "";
  }

  lemma ShortIsShort(a: string, bound: nat)
    requires |a| < bound
    ensures ShortCore(a, bound)
  {
    BlankThenShort("", a, bound);
    assert "" + a == a;
  }

  lemma ShortThenBlank(a: string, b: string, bound: nat)
    requires ShortCore(a, bound) && Blank(b)
    ensures ShortCore(a + b, bound)
  {
    var i, j :| 0 <= i <= j <= |a| && Blank(a[..i]) && Blank(a[j..]) && j - i < bound;
    assert (a + b)[..i] == a[..i] && (a + b)[j..] == a[j..] + b;
  }

  lemma SliceCut(slices: seq<string>, left: string, rest: string, cut: nat, least: nat)
    requires cut <= |rest| && LongEnough(slices, least) && least <= cut
    ensures var more := slices + [left + rest[..cut]];
            LongEnough(more, least) && Flatten(more) + "" + rest[cut..] == Flatten(slices) + left + rest
  {
    var slice := left + rest[..cut];
    FlattenSnoc(slices, slice);
    assert rest == rest[..cut] + rest[cut..];
    assert Flatten(slices) + slice + "" + rest[cut..] == Flatten(slices) + left + (rest[..cut] + rest[cut..]);
  }

  /** What is left over is white space, or shorter than a passage should be. */
  predicate FewOrBlank(pending: string, target: nat) {
    |pending| < target || Blank(pending)
  }

  lemma PieceIsShort(pending: string, cut: string, target: nat, maxSlice: nat)
    requires FewOrBlank(pending, target) && |cut| <= maxSlice && target >= 1
    ensures ShortCore(pending + cut, target + maxSlice)
  {
    if Blank(pending) { BlankThenShort(pending, cut, target + maxSlice); }
    else { ShortIsShort(pending + cut, target + maxSlice); }
  }

  lemma CutEndsWell(text: string, o: nat, sentence: string, from: nat, cut: nat, maxSlice: nat)
    requires StandsAt(text, sentence, o) && from + maxSlice < |sentence| && 0 < cut <= maxSlice
    requires sentence[from + cut] == ' '
             || (cut == maxSlice && forall k :: from + maxSlice / 2 <= k <= from + maxSlice ==> sentence[k] != ' ')
    ensures GoodEnd(text, o + from + cut, maxSlice)
  {
    var p := o + from + cut;
    assert forall k :: 0 <= k < |sentence| ==> text[o + k] == sentence[k];
    if sentence[from + cut] != ' ' {
      forall k | p - maxSlice + maxSlice / 2 <= k <= p ensures text[k] != ' ' {
        assert sentence[k - o] != ' ';
      }
      assert HardCut(text, p, maxSlice);
    }
  }

  /** The slices cut so far, up to position `from` of the sentence. */
  ghost predicate CutSoFar(sentence: string, pending: string, slices: seq<string>, rest: string, left: string,
                           maxSlice: nat, target: nat, text: string, o: nat) {
    && Flatten(slices) + left + rest == pending + sentence && LongEnough(slices, maxSlice / 2)
    && (slices == [] ==> left == pending && rest == sentence) && (slices != [] ==> left == "")
    && |rest| <= |sentence| && rest == sentence[|sentence| - |rest|..] && FewOrBlank(left, target)
    && EndWell(slices, text, o - |pending|, maxSlice) && ShortCores(slices, target + maxSlice)
  }

  predicate CutAsFound(rest: string, cut: nat, maxSlice: nat)
    requires |rest| > maxSlice
  {
    var found := LastSpace(rest, maxSlice + 1);
    cut == if found < maxSlice / 2 then maxSlice else found
  }

  lemma CutOneMore(sentence: string, pending: string, slices: seq<string>, rest: string, left: string,
                   maxSlice: nat, target: nat, text: string, o: nat, cut: nat)
    requires CutSoFar(sentence, pending, slices, rest, left, maxSlice, target, text, o)
    requires maxSlice >= 512 && target >= 1 && StandsAt(text, sentence, o)
    requires |rest| > maxSlice && CutAsFound(rest, cut, maxSlice)
    ensures 0 < cut <= maxSlice
    ensures CutSoFar(sentence, pending, slices + [left + rest[..cut]], rest[cut..], "", maxSlice, target, text, o)
  {
    assert 0 < cut <= maxSlice && maxSlice / 2 <= cut;
    CutTextStays(sentence, pending, slices, rest, left, maxSlice, target, text, o, cut);
    CutStaysWell(sentence, pending, slices, rest, left, maxSlice, target, text, o, cut);
    RestIsSuffix(sentence, rest, cut);
    PieceIsShort(left, rest[..cut], target, maxSlice);
    ShortCoresSnoc(slices, left + rest[..cut], target + maxSlice);
    assert FewOrBlank("", target);
    hide *;
    var more := slices + [left + rest[..cut]];
    CutAgain(sentence, pending, more, rest[cut..], maxSlice, target, text, o);
  }

  lemma RestIsSuffix(sentence: string, rest: string, cut: nat)
    requires |rest| <= |sentence| && rest == sentence[|sentence| - |rest|..] && cut <= |rest|
    ensures rest[cut..] == sentence[|sentence| - |rest[cut..]|..]
  {
  }

  lemma CutAgain(sentence: string, pending: string, slices: seq<string>, rest: string, maxSlice: nat, target: nat,
                 text: string, o: nat)
    requires Flatten(slices) + "" + rest == pending + sentence && LongEnough(slices, maxSlice / 2) && slices != []
    requires |rest| <= |sentence| && rest == sentence[|sentence| - |rest|..] && FewOrBlank("", target)
    requires EndWell(slices, text, o - |pending|, maxSlice) && ShortCores(slices, target + maxSlice)
    ensures CutSoFar(sentence, pending, slices, rest, "", maxSlice, target, text, o)
  {
  }

  lemma CutTextStays(sentence: string, pending: string, slices: seq<string>, rest: string, left: string,
                     maxSlice: nat, target: nat, text: string, o: nat, cut: nat)
    requires CutSoFar(sentence, pending, slices, rest, left, maxSlice, target, text, o)
    requires maxSlice / 2 <= cut <= |rest|
    ensures Flatten(slices + [left + rest[..cut]]) + "" + rest[cut..] == pending + sentence
    ensures LongEnough(slices + [left + rest[..cut]], maxSlice / 2)
  {
    hide EndWell;
    hide ShortCores;
    hide FewOrBlank;
    SliceCut(slices, left, rest, cut, maxSlice / 2);
  }

  lemma CutKnows(sentence: string, pending: string, slices: seq<string>, rest: string, left: string,
                 maxSlice: nat, target: nat, text: string, o: nat)
    requires CutSoFar(sentence, pending, slices, rest, left, maxSlice, target, text, o)
    ensures |rest| <= |sentence| && rest == sentence[|sentence| - |rest|..]
    ensures Flatten(slices) + left + rest == pending + sentence && EndWell(slices, text, o - |pending|, maxSlice)
  {
  }

  lemma CutStaysWell(sentence: string, pending: string, slices: seq<string>, rest: string, left: string,
                     maxSlice: nat, target: nat, text: string, o: nat, cut: nat)
    requires CutSoFar(sentence, pending, slices, rest, left, maxSlice, target, text, o)
    requires StandsAt(text, sentence, o) && |rest| > maxSlice && CutAsFound(rest, cut, maxSlice) && 0 < cut
    ensures EndWell(slices + [left + rest[..cut]], text, o - |pending|, maxSlice)
  {
    var from := |sentence| - |rest|;
    CutKnows(sentence, pending, slices, rest, left, maxSlice, target, text, o);
    hide *;
    SpaceIsInSentence(sentence, from, maxSlice, cut);
    CutEndsWell(text, o, sentence, from, cut, maxSlice);
    SizesAddUp(Flatten(slices), left, rest, pending, sentence);
    EndWellSnoc(slices, left + rest[..cut], text, o - |pending|, maxSlice, o + from + cut);
  }

  lemma ShortCoresSnoc(pieces: seq<string>, piece: string, bound: nat)
    requires ShortCores(pieces, bound) && ShortCore(piece, bound)
    ensures ShortCores(pieces + [piece], bound)
  {
    hide ShortCore;
  }

  lemma SizesAddUp(a: string, b: string, c: string, d: string, e: string)
    requires a + b + c == d + e
    ensures |a| + |b| + |c| == |d| + |e|
  {
    assert |a + b + c| == |a| + |b| + |c|;
  }

  lemma NothingCut(sentence: string, pending: string, maxSlice: nat, target: nat, text: string, o: nat)
    requires FewOrBlank(pending, target)
    ensures CutSoFar(sentence, pending, [], sentence, pending, maxSlice, target, text, o)
  {
  }

  /** Cuts bounded slices off a long sentence, at a space where there is one in the second half. */
  method CutLong(sentence: string, pending: string, maxSlice: nat, ghost target: nat, ghost text: string, ghost o: nat)
    returns (slices: seq<string>, rest: string, left: string)
    requires maxSlice >= 512 && target >= 1 && StandsAt(text, sentence, o) && FewOrBlank(pending, target)
    ensures Flatten(slices) + left + rest == pending + sentence && |rest| <= maxSlice
    ensures LongEnough(slices, maxSlice / 2) && (slices == [] ==> left == pending && rest == sentence)
    ensures (slices != [] ==> left == "") && FewOrBlank(left, target)
    ensures EndWell(slices, text, o - |pending|, maxSlice) && ShortCores(slices, target + maxSlice)
  {
    slices, rest, left := [], sentence, pending;
    NothingCut(sentence, pending, maxSlice, target, text, o);
    while |rest| > maxSlice
      invariant CutSoFar(sentence, pending, slices, rest, left, maxSlice, target, text, o)
      decreases |rest|
    {
      hide CutSoFar;
      var cut := LastSpace(rest, maxSlice + 1);
      if cut < maxSlice / 2 { cut := maxSlice; }
      CutOneMore(sentence, pending, slices, rest, left, maxSlice, target, text, o, cut);
      slices, left, rest := slices + [left + rest[..cut]], "", rest[cut..];
    }
  }

  lemma SpaceIsInSentence(sentence: string, from: nat, maxSlice: nat, cut: nat)
    requires from + maxSlice < |sentence|
    requires CutAsFound(sentence[from..], cut, maxSlice)
    ensures cut <= maxSlice
    ensures sentence[from + cut] == ' '
            || (cut == maxSlice && forall k :: from + maxSlice / 2 <= k <= from + maxSlice ==> sentence[k] != ' ')
  {
    var rest := sentence[from..];
    assert forall k :: from <= k < |sentence| ==> sentence[k] == rest[k - from];
  }

  /** The tail joins the last slice when it is blank, so that it adds no empty evidence. */
  function WithTail(pieces: seq<string>, pending: string): (r: seq<string>)
    ensures Flatten(r) == Flatten(pieces) + pending
    ensures |r| <= |pieces| + 1 && (pending == "" ==> r == pieces)
  {
    FlattenSnoc(pieces, pending);
    if pending == "" then pieces
    else if pieces != [] && Blank(pending) then
      var k := |pieces| - 1;
      FlattenSnoc(pieces[..k], pieces[k]);
      FlattenSnoc(pieces[..k], pieces[k] + pending);
      assert pieces == pieces[..k] + [pieces[k]];
      pieces[..k] + [pieces[k] + pending]
    else pieces + [pending]
  }

  // ---- How many passages ----

  lemma {:induction false} LengthsAddUp(pieces: seq<string>, least: nat)
    requires LongEnough(pieces, least)
    ensures |Flatten(pieces)| >= |pieces| * least
  {
    if pieces != [] {
      LengthsAddUp(pieces[1..], least);
      assert |pieces| * least == least + |pieces[1..]| * least;
    }
  }

  /** A text of at most 32768 characters gets at most 128 passages; no text gets more than 257. */
  lemma PassageCount(body: seq<string>, pending: string, text: string)
    requires Flatten(body) + pending == text && LongEnough(body, Least(Target(|text|)))
    ensures |WithTail(body, pending)| <= 257
    ensures |text| <= 32768 ==> |WithTail(body, pending)| <= MAX_PASSAGES
  {
    var t, m := Target(|text|), |body|;
    LengthsAddUp(body, Least(t));
    assert |text| == |Flatten(body)| + |pending|;
    if |text| <= 32768 {
      assert t <= 256 && Least(t) == t;
      FewPieces(m, t, |text|, |pending|);
    }
    if m >= 257 { ManyPieces(m, t, |text|); }
  }

  lemma Scaled(a: nat, b: nat, t: nat)
    requires a <= b
    ensures a * t <= b * t
  {
  }

  lemma FewPieces(m: nat, t: nat, length: nat, pending: nat)
    requires t >= 1 && m * t + pending <= length <= MAX_PASSAGES * t
    ensures m <= MAX_PASSAGES && (m == MAX_PASSAGES ==> pending == 0)
  {
    if m > MAX_PASSAGES { Scaled(MAX_PASSAGES + 1, m, t); }
  }

  lemma ManyPieces(m: nat, t: nat, length: nat)
    requires t >= 1 && m * Least(t) <= length <= MAX_PASSAGES * t && (t > 1 ==> MAX_PASSAGES * (t - 1) < length)
    ensures m <= 256
  {
    LeastIsHalf(t);
    hide Least;
    if m >= 257 { Scaled(257, m, Least(t)); }
  }

  lemma LeastIsHalf(t: nat)
    requires t >= 1
    ensures 257 * Least(t) > MAX_PASSAGES * t
  {
  }

  // ---- The slicing loop ----

  /** What a pass over one sentence does to the text sliced so far. */
  lemma SentenceTaken(pieces: seq<string>, pending: string, sentence: string, slices: seq<string>, left: string,
                      rest: string, done: string)
    requires Flatten(pieces) + pending == done && Flatten(slices) + left + rest == pending + sentence
    ensures Flatten(pieces + slices) + (left + rest) == done + sentence
  {
    FlattenAppend(pieces, slices);
    assert Flatten(pieces + slices) + (left + rest) == Flatten(pieces) + (Flatten(slices) + left + rest);
    assert Flatten(pieces) + (pending + sentence) == (Flatten(pieces) + pending) + sentence;
  }

  lemma StillLong(pieces: seq<string>, slices: seq<string>, least: nat, half: nat)
    requires LongEnough(pieces, least) && LongEnough(slices, half) && least <= half
    ensures LongEnough(pieces + slices, least)
  {
  }

  lemma StillLongOne(pieces: seq<string>, piece: string, least: nat)
    requires LongEnough(pieces, least) && |piece| >= least
    ensures LongEnough(pieces + [piece], least)
  {
  }

  /** The passages so far and what is pending, after the first `o` characters of the text. */
  ghost predicate Sliced(text: string, o: nat, pieces: seq<string>, pending: string, target: nat, maxSlice: nat) {
    && o <= |text| && Flatten(pieces) + pending == text[..o] && LongEnough(pieces, Least(target))
    && EndWell(pieces, text, 0, maxSlice) && ShortCores(pieces, target + maxSlice)
  }

  lemma NothingSliced(text: string, target: nat)
    requires target >= 1
    ensures Sliced(text, 0, [], "", target, MaxSlice(target))
  {
  }

  /** A sentence is cut, and what is left of it waits to be pushed. */
  lemma SentenceSliced(text: string, o: nat, pieces: seq<string>, pending: string, target: nat, sentence: string,
                       slices: seq<string>, left: string, rest: string)
    requires Sliced(text, o, pieces, pending, target, MaxSlice(target)) && StandsAt(text, sentence, o)
    requires Flatten(slices) + left + rest == pending + sentence && LongEnough(slices, MaxSlice(target) / 2)
    requires EndWell(slices, text, o - |pending|, MaxSlice(target)) && ShortCores(slices, target + MaxSlice(target))
    ensures Sliced(text, o + |sentence|, pieces + slices, left + rest, target, MaxSlice(target))
  {
    assert text[..o + |sentence|] == text[..o] + sentence;
    SentenceTaken(pieces, pending, sentence, slices, left, rest, text[..o]);
    SizesAddUp(Flatten(pieces), pending, "", text[..o], "");
    hide StandsAt;
    hide Flatten;
    StillLong(pieces, slices, Least(target), MaxSlice(target) / 2);
    hide LongEnough;
    EndWellAppend(pieces, slices, text, 0, MaxSlice(target));
    hide EndWell;
  }

  lemma PendingPushed(text: string, o: nat, pieces: seq<string>, pending: string, target: nat, maxSlice: nat)
    requires Sliced(text, o, pieces, pending, target, maxSlice) && (o > 0 ==> GoodEnd(text, o, maxSlice))
    requires ShortCore(pending, target + maxSlice) && |pending| >= target >= 1
    ensures Sliced(text, o, pieces + [pending], "", target, maxSlice)
  {
    FlattenSnoc(pieces, pending);
    StillLongOne(pieces, pending, Least(target));
    assert |Flatten(pieces)| + |pending| == o;
    EndWellSnoc(pieces, pending, text, 0, maxSlice, o);
    assert Flatten(pieces + [pending]) + "" == Flatten(pieces) + pending;
  }

  lemma TailJoins(text: string, front: seq<string>, last: string, tail: string, maxSlice: nat, bound: nat)
    requires EndWell(front + [last], text, 0, maxSlice) && ShortCores(front + [last], bound) && Blank(tail)
    requires |Flatten(front + [last])| + |tail| == |text| > 0
    ensures EndWell(front + [last + tail], text, 0, maxSlice) && ShortCores(front + [last + tail], bound)
  {
    var pieces := front + [last];
    FlattenSnoc(front, last);
    assert pieces[|front|] == last && forall i :: 0 <= i < |front| ==> pieces[i] == front[i];
    ShortThenBlank(last, tail, bound);
    hide Flatten;
    hide ShortCore;
    hide Blank;
    forall i | 0 < i <= |front| ensures GoodEnd(text, |Flatten(front[..i])|, maxSlice) {
      assert front[..i] == pieces[..i];
    }
    EndWellSnoc(front, last + tail, text, 0, maxSlice, |text|);
    ShortCoresSnoc(front, last + tail, bound);
  }

  lemma TailFollows(text: string, pieces: seq<string>, tail: string, target: nat, maxSlice: nat)
    requires EndWell(pieces, text, 0, maxSlice) && ShortCores(pieces, target + maxSlice) && target >= 1
    requires |Flatten(pieces)| + |tail| == |text| > 0 && FewOrBlank(tail, target)
    ensures EndWell(pieces + [tail], text, 0, maxSlice) && ShortCores(pieces + [tail], target + maxSlice)
  {
    PieceIsShort(tail, "", target, maxSlice);
    assert tail + "" == tail;
    assert GoodEnd(text, |text|, maxSlice);
    hide *;
    EndWellSnoc(pieces, tail, text, 0, maxSlice, |text|);
    ShortCoresSnoc(pieces, tail, target + maxSlice);
  }

  /** The tail keeps the passages short apart from white space, and ends with the text. */
  lemma TailEndsWell(text: string, pieces: seq<string>, pending: string, target: nat, maxSlice: nat)
    requires Sliced(text, |text|, pieces, pending, target, maxSlice) && FewOrBlank(pending, target) && target >= 1
    ensures Flatten(pieces) + pending == text && LongEnough(pieces, Least(target))
    ensures EndWell(WithTail(pieces, pending), text, 0, maxSlice)
    ensures ShortCores(WithTail(pieces, pending), target + maxSlice)
  {
    assert text[..|text|] == text;
    SizesAddUp(Flatten(pieces), pending, "", text, "");
    hide Flatten;
    hide LongEnough;
    hide EndWell;
    hide ShortCores;
    hide FewOrBlank;
    hide Blank;
    if pending != "" {
      if pieces != [] && Blank(pending) {
        var k := |pieces| - 1;
        assert pieces == pieces[..k] + [pieces[k]];
        TailJoins(text, pieces[..k], pieces[k], pending, maxSlice, target + maxSlice);
      } else {
        TailFollows(text, pieces, pending, target, maxSlice);
      }
    }
  }

  lemma BeginsAfterCut(text: string, piece: string, o: nat)
    requires StandsAt(text, piece, o)
    ensures o + |piece| <= |text| && (o > 0 ==> IsCut(text, o))
  {
  }

  lemma SentenceInText(text: string, n: nat)
    requires n < |Sentences(text)|
    ensures var sentence, o := Sentences(text)[n], |Flatten(Sentences(text)[..n])|;
            && StandsAt(text, sentence, o) && o + |sentence| <= |text|
            && |Flatten(Sentences(text)[..n + 1])| == o + |sentence|
            && (n + 1 == |Sentences(text)| ==> o + |sentence| == |text|)
            && (0 < o + |sentence| < |text| ==> IsCut(text, o + |sentence|))
  {
    SentencesStand(text, |text|);
    assert Sentences(text) == SentencesUpTo(text, |text|);
    PieceInText(text, Sentences(text), n);
    hide *;
  }

  lemma PieceInText(text: string, all: seq<string>, n: nat)
    requires n < |all| && AllStand(text, all) && Flatten(all) == text
    ensures var sentence, o := all[n], |Flatten(all[..n])|;
            && StandsAt(text, sentence, o) && o + |sentence| <= |text|
            && |Flatten(all[..n + 1])| == o + |sentence| && (n + 1 == |all| ==> o + |sentence| == |text|)
            && (0 < o + |sentence| < |text| ==> IsCut(text, o + |sentence|))
  {
    FlattenSnoc(all[..n], all[n]);
    assert all[..n + 1] == all[..n] + [all[n]];
    assert all[..|all|] == all;
    hide Flatten;
    BeginsAfterCut(text, all[n], |Flatten(all[..n])|);
    if n + 1 < |all| { BeginsAfterCut(text, all[n + 1], |Flatten(all[..n + 1])|); }
    hide AllStand;
    hide IsCut;
    hide StandsAt;
  }

  /**
   Nothing is lost, and a source of at most 32768 characters has at most 128 numbered passages. Every passage ends
   with a sentence, before a space, or where a long stretch offers neither; apart from white space at its ends it
   is bounded, for such a source by 767 characters.
   */
  method SourcePassages(text: string) returns (pieces: seq<string>)
    ensures Flatten(pieces) == text
    ensures |pieces| <= 257 && (|text| <= 32768 ==> |pieces| <= MAX_PASSAGES)
    ensures EndWell(pieces, text, 0, MaxSlice(Target(|text|)))
    ensures ShortCores(pieces, Target(|text|) + MaxSlice(Target(|text|)))
    ensures |text| <= 32768 ==> ShortCores(pieces, 768) && EndWell(pieces, text, 0, 512)
  {
    hide Sentences;
    hide Flatten;
    hide Blank;
    hide Sliced;
    hide StandsAt;
    var target := Target(|text|);
    var maxSlice := MaxSlice(target);
    var sentences, pending := Sentences(text), "";
    pieces := [];
    ghost var o := 0;
    NothingSliced(text, target);
    assert Flatten(sentences[..0]) == "";
    for n := 0 to |sentences|
      invariant o == |Flatten(sentences[..n])| && Sliced(text, o, pieces, pending, target, maxSlice)
      invariant FewOrBlank(pending, target) && (n == |sentences| ==> o == |text|)
    {
      SentenceInText(text, n);
      var slices, rest, left := CutLong(sentences[n], pending, maxSlice, target, text, o);
      SentenceSliced(text, o, pieces, pending, target, sentences[n], slices, left, rest);
      PieceIsShort(left, rest, target, maxSlice);
      pieces, pending, o := pieces + slices, left + rest, o + |sentences[n]|;
      if |pending| >= target && !Blank(pending) {
        PendingPushed(text, o, pieces, pending, target, maxSlice);
        pieces, pending := pieces + [pending], "";
      }
    }
    TailEndsWell(text, pieces, pending, target, maxSlice);
    PassageCount(pieces, pending, text);
    pieces := WithTail(pieces, pending);
  }

  // ---- Field segments ----

  predicate EndsClause(c: char) {
    || c == '.' || c == '!' || c == '?' || c == ';' || c == ',' || c == ':' || c == '\U{3002}' || c == '\U{FF01}'
       || c == '\U{FF1F}'
    || c == '\U{FF1B}' || c == '\U{FF0C}' || c == '\U{FF1A}'
  }

  function LineBreaks(text: string, p: nat): (e: nat)
    requires p <= |text|
    ensures p <= e <= |text|
    decreases |text| - p
  {
    if p < |text| && text[p] == '\n' then LineBreaks(text, p + 1) else p
  }

  /** The end of the first clause boundary at or after `p`: a clause end before white space, or line breaks. */
  function Boundary(text: string, p: nat): (e: Option<nat>)
    requires p <= |text|
    ensures e.Some? ==> p < e.value <= |text|
    decreases |text| - p
  {
    if p == |text| then None
    else if EndsClause(text[p]) && (p + 1 == |text| || IsSpace(text[p + 1])) then Some(p + 1)
    else if text[p] == '\n' then Some(LineBreaks(text, p + 1))
    else Boundary(text, p + 1)
  }

  /** A clause mark before white space or the end, or the last of several line breaks. */
  ghost predicate ClauseEnd(text: string, e: int) {
    0 < e <= |text| && if text[e - 1] == '\n' then e == |text| || text[e] != '\n'
                       else EndsClause(text[e - 1]) && (e == |text| || IsSpace(text[e]))
  }

  lemma {:induction false} BreaksEnd(text: string, p: nat)
    requires 0 < p <= |text| && text[p - 1] == '\n'
    ensures ClauseEnd(text, LineBreaks(text, p)) && forall q :: p <= q < LineBreaks(text, p) ==> !ClauseEnd(text, q)
    decreases |text| - p
  {
    if p < |text| && text[p] == '\n' { BreaksEnd(text, p + 1); }
  }

  /** Boundaries are found one after the other, and none is passed over. */
  lemma {:induction false} BoundaryIsNext(text: string, p: nat)
    requires p <= |text|
    ensures match Boundary(text, p)
            case Some(e) => ClauseEnd(text, e) && forall q :: p < q < e ==> !ClauseEnd(text, q)
            case None => forall q :: p < q ==> !ClauseEnd(text, q)
    decreases |text| - p
  {
    if p < |text| {
      if text[p] == '\n' { BreaksEnd(text, p + 1); } else { BoundaryIsNext(text, p + 1); }
    }
  }

  /** A segment ends with a clause, or with the text; an end inside it has only white space on one side. */
  ghost predicate ClauseSegment(text: string, s: int, e: int) {
    && 0 <= s <= e <= |text| && (e == |text| || ClauseEnd(text, e))
    && forall q :: s < q < e && ClauseEnd(text, q) ==> Blank(text[s..q]) || (e == |text| && Blank(text[q..]))
  }

  ghost predicate ClauseSegments(text: string, pieces: seq<string>) {
    forall i :: 0 <= i < |pieces| ==> ClauseSegment(text, |Flatten(pieces[..i])|, |Flatten(pieces[..i + 1])|)
  }

  lemma ClauseSegmentsSnoc(text: string, pieces: seq<string>, piece: string)
    requires ClauseSegments(text, pieces)
    requires ClauseSegment(text, |Flatten(pieces)|, |Flatten(pieces)| + |piece|)
    ensures ClauseSegments(text, pieces + [piece])
  {
    var more := pieces + [piece];
    FlattenSnoc(pieces, piece);
    hide Flatten;
    hide ClauseSegment;
    forall i | 0 <= i < |more| ensures ClauseSegment(text, |Flatten(more[..i])|, |Flatten(more[..i + 1])|) {
      if i < |pieces| {
        assert more[..i] == pieces[..i] && more[..i + 1] == pieces[..i + 1];
      } else {
        assert more[..i] == pieces && more[..i + 1] == more;
      }
    }
  }

  /** A blank tail joins the last segment. */
  lemma TailJoinsSegment(text: string, front: seq<string>, last: string, tail: string)
    requires ClauseSegments(text, front + [last]) && Blank(tail)
    requires Flatten(front + [last]) + tail == text
    ensures ClauseSegments(text, front + [last + tail])
  {
    var pieces := front + [last];
    FlattenSnoc(front, last);
    var s, e := |Flatten(front)|, |Flatten(pieces)|;
    assert pieces[..|front|] == front && pieces[..|pieces|] == pieces;
    assert ClauseSegment(text, s, e);
    forall i | 0 <= i < |front| ensures ClauseSegment(text, |Flatten(front[..i])|, |Flatten(front[..i + 1])|) {
      assert pieces[..i] == front[..i] && pieces[..i + 1] == front[..i + 1];
    }
    hide Flatten;
    assert text[e..] == tail;
    forall q | s < q < |text| && ClauseEnd(text, q) ensures Blank(text[s..q]) || Blank(text[q..]) {
      if q >= e { assert text[q..] == tail[q - e..]; }
    }
    ClauseSegmentsSnoc(text, front, last + tail);
  }

  datatype FieldKind = Whole | Clauses

  predicate NoBlank(pieces: seq<string>) {
    forall i :: 0 <= i < |pieces| ==> !Blank(pieces[i])
  }

  lemma BlankParts(a: string, b: string)
    ensures Blank(a + b) <==> Blank(a) && Blank(b)
  {
    assert forall i :: 0 <= i < |a| ==> (a + b)[i] == a[i];
    assert forall i :: 0 <= i < |b| ==> (a + b)[|a| + i] == b[i];
  }

  /** The segments up to `start`, once every boundary up to `p` has been looked at. */
  ghost predicate Segmented(text: string, pieces: seq<string>, start: nat, p: nat) {
    && start <= p <= |text| && Flatten(pieces) == text[..start] && NoBlank(pieces) && (pieces == [] ==> start == 0)
    && ClauseSegments(text, pieces)
    && forall q :: start < q <= p && ClauseEnd(text, q) ==> Blank(text[start..q])
  }

  lemma NothingSegmented(text: string)
    ensures Segmented(text, [], 0, 0)
  {
  }

  lemma BoundaryPassed(text: string, pieces: seq<string>, start: nat, p: nat)
    requires Segmented(text, pieces, start, p) && Boundary(text, p).Some?
    ensures var end := Boundary(text, p).value;
            if Blank(text[start..end]) then Segmented(text, pieces, start, end)
            else Segmented(text, pieces + [text[start..end]], end, end)
  {
    var end := Boundary(text, p).value;
    BoundaryIsNext(text, p);
    hide Boundary;
    if !Blank(text[start..end]) {
      FlattenSnoc(pieces, text[start..end]);
      assert text[..end] == text[..start] + text[start..end];
      assert |Flatten(pieces)| == start;
      hide Flatten;
      assert ClauseSegment(text, start, end);
      hide ClauseEnd;
      ClauseSegmentsSnoc(text, pieces, text[start..end]);
    }
  }

  /**
   The segments join back to the field, and every segment says something if the field does. They end where clauses
   do, and no clause end is passed over behind which and before which something is said.
   */
  method FieldSegments(text: string, kind: FieldKind) returns (pieces: seq<string>)
    ensures Flatten(pieces) == text
    ensures text != "" ==> pieces != []
    ensures !Blank(text) ==> NoBlank(pieces)
    ensures kind == Whole ==> pieces == [text]
    ensures kind == Clauses ==> ClauseSegments(text, pieces)
  {
    if kind == Whole {
      FlattenSnoc([], text);
      assert [] + [text] == [text];
      return [text];
    }
    hide Boundary;
    hide Blank;
    hide Segmented;
    var start, p := 0, 0;
    var boundary := Boundary(text, 0);
    pieces := [];
    NothingSegmented(text);
    while boundary.Some?
      invariant 0 <= start <= p <= |text| && boundary == Boundary(text, p) && Segmented(text, pieces, start, p)
      decreases |text| - p
    {
      BoundaryPassed(text, pieces, start, p);
      var end := boundary.value;
      var piece := text[start..end];
      if !Blank(piece) { pieces, start := pieces + [piece], end; }
      p := end;
      boundary := Boundary(text, p);
    }
    TailSegmented(text, pieces, start, p);
    if start < |text| {
      var tail := text[start..];
      if pieces != [] && Blank(tail) {
        pieces := pieces[..|pieces| - 1] + [pieces[|pieces| - 1] + tail];
      } else {
        pieces := pieces + [tail];
      }
    }
  }

  lemma TailSegmented(text: string, pieces: seq<string>, start: nat, p: nat)
    requires Segmented(text, pieces, start, p) && Boundary(text, p).None?
    ensures var tail := text[start..];
            var all := if start == |text| then pieces
              else if pieces != [] && Blank(tail) then pieces[..|pieces| - 1] + [pieces[|pieces| - 1] + tail]
              else pieces + [tail];
            && Flatten(all) == text && (text != "" ==> all != []) && ClauseSegments(text, all)
            && (!Blank(text) ==> NoBlank(all))
  {
    var tail := text[start..];
    BoundaryIsNext(text, p);
    hide Boundary;
    JoinsTail(pieces, tail);
    assert text == text[..start] + tail;
    assert start == 0 ==> tail == text;
    assert |Flatten(pieces)| == start;
    assert ClauseSegment(text, start, |text|);
    hide Flatten;
    hide ClauseSegment;
    hide Blank;
    if start < |text| {
      if pieces != [] && Blank(tail) {
        assert pieces == pieces[..|pieces| - 1] + [pieces[|pieces| - 1]];
        TailJoinsSegment(text, pieces[..|pieces| - 1], pieces[|pieces| - 1], tail);
      } else {
        ClauseSegmentsSnoc(text, pieces, tail);
      }
    }
  }

  lemma JoinsTail(pieces: seq<string>, tail: string)
    requires NoBlank(pieces)
    ensures Flatten(pieces + [tail]) == Flatten(pieces) + tail
    ensures pieces != [] ==> var joined := pieces[..|pieces| - 1] + [pieces[|pieces| - 1] + tail];
                             Flatten(joined) == Flatten(pieces) + tail && NoBlank(joined)
  {
    FlattenSnoc(pieces, tail);
    if pieces == [] {
    } else {
      hide Flatten;
      var k := |pieces| - 1;
      var front, last := pieces[..k], pieces[k];
      assert pieces == front + [last];
      FlattenSnoc(front, last);
      FlattenSnoc(front, last + tail);
      assert Flatten(front) + (last + tail) == Flatten(front) + last + tail;
      BlankParts(last, tail);
      hide Blank;
    }
  }
}
