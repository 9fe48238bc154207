/** Overlapping windows over the whitespace-normalized prose of a chapter. */
module Passages {
  import opened Text

  const PASSAGE_CHARS := 1500
  const PASSAGE_OVERLAP := 250

  // ---- Normalizing ----

  function WordEnd(s: string): (n: nat)
    ensures n <= |s| && (forall i :: 0 <= i < n ==> !IsSpace(s[i])) && (n < |s| ==> IsSpace(s[n]))
  {
    if s == "" || IsSpace(s[0]) then 0 else 1 + WordEnd(s[1..])
  }

  /** `split()`. */
  function Words(s: string): seq<string> {
    if s == "" then []
    else if IsSpace(s[0]) then Words(s[1..])
    else [s[..WordEnd(s)]] + Words(s[WordEnd(s)..])
  }

  /** `" ".join`. */
  function Join(ws: seq<string>): string {
    if ws == [] then "" else if |ws| == 1 then ws[0] else ws[0] + " " + Join(ws[1..])
  }

  function NormalizeSource(text: string): string {
    Join(Words(text))
  }

  predicate IsWord(w: string) {
    w != "" && forall i :: 0 <= i < |w| ==> !IsSpace(w[i])
  }

  predicate AllWords(ws: seq<string>) {
    forall i :: 0 <= i < |ws| ==> IsWord(ws[i])
  }

  lemma {:induction false} WordsAreWords(s: string)
    ensures AllWords(Words(s))
    decreases |s|
  {
    if s == "" {
    } else if IsSpace(s[0]) {
      WordsAreWords(s[1..]);
    } else {
      WordsAreWords(s[WordEnd(s)..]);
    }
  }

  lemma {:induction false} WordEndOfWord(w: string, rest: string)
    requires (forall i :: 0 <= i < |w| ==> !IsSpace(w[i])) && (rest == "" || IsSpace(rest[0]))
    ensures WordEnd(w + rest) == |w|
  {
    if w == "" {
      assert w + rest == rest;
    } else {
      assert (w + rest)[1..] == w[1..] + rest;
      WordEndOfWord(w[1..], rest);
    }
  }

  lemma FirstWord(w: string, rest: string)
    requires IsWord(w) && (rest == "" || IsSpace(rest[0]))
    ensures Words(w + rest) == [w] + Words(rest)
  {
    WordEndOfWord(w, rest);
    assert !IsSpace((w + rest)[0]);
    assert (w + rest)[..|w|] == w && (w + rest)[|w|..] == rest;
    hide WordEnd;
    hide IsSpace;
  }

  lemma SkippedSpace(s: string)
    ensures Words(" " + s) == Words(s) && IsSpace((" " + s)[0])
  {
    assert (" " + s)[1..] == s;
  }

  lemma {:induction false} WordsOfJoin(ws: seq<string>)
    requires AllWords(ws)
    ensures Words(Join(ws)) == ws
  {
    hide IsSpace;
    hide IsWord;
    if ws == [] {
    } else if |ws| == 1 {
      FirstWord(ws[0], "");
      assert ws[0] + "" == ws[0] && Words("") == [];
    } else {
      SkippedSpace(Join(ws[1..]));
      FirstWord(ws[0], " " + Join(ws[1..]));
      WordsOfJoin(ws[1..]);
      hide Words;
      assert Join(ws) == ws[0] + (" " + Join(ws[1..]));
    }
  }

  /** Normalizing changes nothing but the spacing, and once is enough. */
  lemma NormalizeKeepsWords(text: string)
    ensures Words(NormalizeSource(text)) == Words(text)
    ensures NormalizeSource(NormalizeSource(text)) == NormalizeSource(text)
  {
    WordsAreWords(text);
    WordsOfJoin(Words(text));
  }

  // ---- Windows ----

  /** `text.find(" ", lo, hi)`. */
  function Find(t: string, lo: nat, hi: nat): (r: int)
    requires lo <= hi <= |t|
    ensures r == -1 || (lo <= r < hi && t[r] == ' ')
    ensures forall k :: lo <= k < (if r < 0 then hi else r) ==> t[k] != ' '
    decreases hi - lo
  {
    if lo == hi then -1 else if t[lo] == ' ' then lo else Find(t, lo + 1, hi)
  }

  /** `text.rfind(" ", lo, hi)`. */
  function RFind(t: string, lo: nat, hi: nat): (r: int)
    requires lo <= hi <= |t|
    ensures r == -1 || (lo <= r < hi && t[r] == ' ')
    ensures forall k :: (if r < 0 then lo else r + 1) <= k < hi ==> t[k] != ' '
    decreases hi - lo
  {
    if lo == hi then -1 else if t[hi - 1] == ' ' then hi - 1 else RFind(t, lo, hi - 1)
  }

  datatype Window = Window(start: nat, end: nat, text: string)

  /** A window ends at the last space of its second half, at the limit if there is none, or at the end of the text. */
  ghost predicate EndsAt(t: string, start: nat, end: nat)
    requires start < |t|
  {
    if start + PASSAGE_CHARS >= |t| then end == |t|
    else
      var cut := RFind(t, start + PASSAGE_CHARS / 2, start + PASSAGE_CHARS);
      end == if cut > start then cut else start + PASSAGE_CHARS
  }

  /** The next window starts after the first space of the overlap, or with the overlap if there is none. */
  ghost predicate StartsAt(t: string, end: nat, next: nat)
    requires PASSAGE_OVERLAP <= end <= |t|
  {
    var gap := Find(t, end - PASSAGE_OVERLAP, end);
    next == if gap >= 0 then gap + 1 else end - PASSAGE_OVERLAP
  }

  ghost predicate Chain(t: string, ws: seq<Window>) {
    && (forall i :: 0 <= i < |ws| ==> ws[i].start < |t| && EndsAt(t, ws[i].start, ws[i].end) && ws[i].end <= |t|)
    && (forall i :: 0 <= i < |ws| ==> ws[i].start <= ws[i].end && ws[i].text == t[ws[i].start..ws[i].end])
    && (ws != [] ==> ws[0].start == 0)
    && (forall i :: 0 <= i < |ws| - 1 ==>
        ws[i].end < |t| && ws[i].end >= PASSAGE_OVERLAP && StartsAt(t, ws[i].end, ws[i + 1].start))
  }

  ghost predicate AllWindows(t: string, ws: seq<Window>) {
    Chain(t, ws) && if t == "" then ws == [] else ws != [] && ws[|ws| - 1].end == |t|
  }

  /** Where the next window may start: after the last one, or at the beginning. */
  ghost predicate Continues(t: string, ws: seq<Window>, start: nat) {
    if ws == [] then start == 0
    else ws[|ws| - 1].end < |t| && ws[|ws| - 1].end >= PASSAGE_OVERLAP && StartsAt(t, ws[|ws| - 1].end, start)
  }

  lemma ChainAppend(t: string, ws: seq<Window>, start: nat, end: nat)
    requires Chain(t, ws) && Continues(t, ws, start) && start < |t| && EndsAt(t, start, end) && start <= end <= |t|
    ensures Chain(t, ws + [Window(start, end, t[start..end])])
  {
    hide EndsAt;
    hide StartsAt;
  }

  method WindowEnd(t: string, start: nat) returns (end: nat)
    requires start < |t|
    ensures EndsAt(t, start, end) && start < end <= |t| && (end < |t| ==> end >= start + PASSAGE_CHARS / 2)
  {
    end := if start + PASSAGE_CHARS < |t| then start + PASSAGE_CHARS else |t|;
    if end < |t| {
      var cut := RFind(t, start + PASSAGE_CHARS / 2, end);
      if cut > start { end := cut; }
    }
  }

  method PassageWindows(source: string) returns (ws: seq<Window>)
    ensures AllWindows(NormalizeSource(source), ws)
  {
    hide Chain;
    hide EndsAt;
    var t := NormalizeSource(source);
    var start := 0;
    ws := [];
    assert Chain(t, ws) by { NoWindows(t); }
    while start < |t|
      invariant Chain(t, ws) && Continues(t, ws, start) && start <= |t| && (ws == [] || start < |t|)
      decreases |t| - start
    {
      var end := WindowEnd(t, start);
      ChainAppend(t, ws, start, end);
      ws := ws + [Window(start, end, t[start..end])];
      if end == |t| { break; }
      var next := if start + 1 > end - PASSAGE_OVERLAP then start + 1 else end - PASSAGE_OVERLAP;
      var gap := Find(t, next, end);
      start := if gap >= 0 then gap + 1 else next;
    }
  }

  lemma NoWindows(t: string)
    ensures Chain(t, [])
  {
  }

  // ---- What the windows keep ----

  /** No window is longer than the limit; starts advance by at least 500, ends increase, and nothing is skipped. */
  lemma WindowsAdvance(t: string, ws: seq<Window>, i: nat)
    requires Chain(t, ws) && i < |ws|
    ensures 0 < ws[i].end - ws[i].start <= PASSAGE_CHARS
    ensures i + 1 < |ws| ==> ws[i].start + 500 <= ws[i + 1].start <= ws[i].end && ws[i].end < ws[i + 1].end
  {
    assert EndsAt(t, ws[i].start, ws[i].end);
    if i + 1 < |ws| {
      assert StartsAt(t, ws[i].end, ws[i + 1].start);
      assert EndsAt(t, ws[i + 1].start, ws[i + 1].end);
    }
  }

  ghost predicate Inside(w: Window, a: nat, b: nat) {
    w.start <= a && b <= w.end
  }

  /** The last window that starts at or before a position. */
  lemma {:induction false} LastStarting(ws: seq<Window>, a: nat, n: nat) returns (i: nat)
    requires 0 < n <= |ws| && ws[0].start == 0 && (n < |ws| ==> a < ws[n].start)
    ensures i < n && ws[i].start <= a && (i + 1 < |ws| ==> a < ws[i + 1].start)
  {
    if ws[n - 1].start <= a { i := n - 1; } else { i := LastStarting(ws, a, n - 1); }
  }

  /** Every character of the text is in a window. */
  lemma WindowsCover(t: string, ws: seq<Window>, p: nat)
    requires AllWindows(t, ws) && p < |t|
    ensures exists i :: 0 <= i < |ws| && Inside(ws[i], p, p + 1)
  {
    var i := LastStarting(ws, p, |ws|);
    WindowsAdvance(t, ws, i);
    assert Inside(ws[i], p, p + 1);
  }

  predicate WordsWithin(source: string, limit: nat) {
    forall i :: 0 <= i < |Words(source)| ==> |Words(source)[i]| <= limit
  }

  /** Any `limit + 1` characters of the joined words contain a space. */
  lemma {:induction false} SpacesRecur(ws: seq<string>, limit: nat, p: nat) returns (k: nat)
    requires (forall i :: 0 <= i < |ws| ==> |ws[i]| <= limit) && p + limit < |Join(ws)|
    ensures p <= k <= p + limit && Join(ws)[k] == ' '
  {
    var first := |ws[0]|;
    if p <= first {
      k := first;
    } else {
      k := SpacesRecur(ws[1..], limit, p - first - 1);
      k := k + first + 1;
    }
  }

  lemma WindowText(t: string, ws: seq<Window>, i: nat)
    requires Chain(t, ws) && i < |ws|
    ensures ws[i].start <= ws[i].end <= |t| && ws[i].text == t[ws[i].start..ws[i].end]
  {
  }

  /** Where words are short, the overlap is cut back by at most one word. */
  lemma NextStartsEarly(source: string, ws: seq<Window>, limit: nat, i: nat)
    requires AllWindows(NormalizeSource(source), ws) && WordsWithin(source, limit) && limit <= 249 && i + 1 < |ws|
    ensures ws[i + 1].start <= ws[i].end - PASSAGE_OVERLAP + limit + 1
  {
    var t := NormalizeSource(source);
    assert ws[i].end < |t| && ws[i].end >= PASSAGE_OVERLAP && StartsAt(t, ws[i].end, ws[i + 1].start);
    hide Chain;
    hide Words;
    var k := SpacesRecur(Words(source), limit, ws[i].end - PASSAGE_OVERLAP);
  }

  /**
   Quote preservation: if no word is longer than `limit`, at most 249, then every stretch of at most
   `250 - limit` characters of the normalized text lies wholly inside some window, word for word.
   */
  lemma QuotePreserved(source: string, ws: seq<Window>, limit: nat, a: nat, b: nat)
    requires AllWindows(NormalizeSource(source), ws) && WordsWithin(source, limit) && limit <= 249
    requires a < b <= |NormalizeSource(source)| && b - a <= PASSAGE_OVERLAP - limit
    ensures exists i :: 0 <= i < |ws| && Inside(ws[i], a, b) && a - ws[i].start <= b - ws[i].start <= |ws[i].text|
                        && ws[i].text[a - ws[i].start..b - ws[i].start] == NormalizeSource(source)[a..b]
  {
    hide Words;
    hide Join;
    hide WordsWithin;
    hide EndsAt;
    hide StartsAt;
    var t := NormalizeSource(source);
    hide NormalizeSource;
    var i := LastStarting(ws, a, |ws|);
    WindowText(t, ws, i);
    if i + 1 < |ws| { NextStartsEarly(source, ws, limit, i); }
    hide Chain;
    assert Inside(ws[i], a, b);
    SliceOfSlice(t, ws[i].start, ws[i].end, a, b);
  }

  lemma SliceOfSlice(t: string, lo: nat, hi: nat, a: nat, b: nat)
    requires lo <= a <= b <= hi <= |t|
    ensures t[lo..hi][a - lo..b - lo] == t[a..b]
  {
    forall k | 0 <= k < b - a ensures t[lo..hi][a - lo..b - lo][k] == t[a..b][k] {}
  }
}
