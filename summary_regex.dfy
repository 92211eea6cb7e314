/**
  `extract_summary_from_text`, written as an explicit scanner for the search of

      Summary\s*(.+?)(?=\s*Notes\b|\s*Rating\b|\s*Archive Warning\b|$)

  with DOTALL and IGNORECASE, followed by strip() and `re.sub(r'\s+', ' ', ...)`.
*/
module SummaryRegex {
  import opened Text
  import opened Wrappers

  /** The lower-case literal w matches at q, ignoring case: its characters from j on
      are those of the text from q + j on, lowered. */
  predicate LiteralFrom(text: string, q: nat, w: string, j: nat)
    requires j <= |w|
    decreases |w| - j
  {
    q + |w| <= |text| && (j == |w| || (LowerChar(text[q + j]) == w[j] && LiteralFrom(text, q, w, j + 1)))
  }

  predicate LiteralAt(text: string, q: nat, w: string) {
    LiteralFrom(text, q, w, 0)
  }

  lemma {:induction false} LiteralFromLower(text: string, q: nat, w: string, j: nat)
    requires j <= |w|
    ensures LiteralFrom(text, q, w, j) <==> q + |w| <= |text| && Lower(text[q + j..q + |w|]) == w[j..]
    decreases |w| - j
  {
    if j < |w| && q + |w| <= |text| {
      LiteralFromLower(text, q, w, j + 1);
      var l := Lower(text[q + j..q + |w|]);
      assert l[0] == LowerChar(text[q + j]);
      assert l[1..] == Lower(text[q + j + 1..q + |w|]);
      assert l == [l[0]] + l[1..];
      assert w[j..] == [w[j]] + w[j + 1..];
    }
  }

  /** The comparison is that of the lowered slice with the literal. */
  lemma LiteralAtLower(text: string, q: nat, w: string)
    ensures LiteralAt(text, q, w) <==> q + |w| <= |text| && Lower(text[q..q + |w|]) == w
  {
    LiteralFromLower(text, q, w, 0);
  }

  /** The regex can match at i: "Summary" in any case, and at least one character after
      it for `.+?` (the greedy `\s*` gives a whitespace character back when it must). */
  predicate CanMatchAt(text: string, i: nat) {
    LiteralAt(text, i, "summary") && i + 7 < |text|
  }

  /** Length of the whitespace run that starts at j (the greedy `\s*`). */
  function SpaceRun(text: string, j: nat): (n: nat)
    requires j <= |text|
    ensures j + n <= |text|
    decreases |text| - j
  {
    if j < |text| && IsSpace(text[j]) then 1 + SpaceRun(text, j + 1) else 0
  }

  /** `\s*` is greedy: it takes whitespace only, and all of it. */
  lemma {:induction false} SpaceRunIsMaximal(text: string, j: nat)
    requires j <= |text|
    ensures forall k :: j <= k < j + SpaceRun(text, j) ==> IsSpace(text[k])
    ensures j + SpaceRun(text, j) == |text| || !IsSpace(text[j + SpaceRun(text, j)])
    decreases |text| - j
  {
    if j < |text| && IsSpace(text[j]) {
      SpaceRunIsMaximal(text, j + 1);
    }
  }

  /** The keyword w, ignoring case, at q and then a word boundary (`\b` after a letter). */
  predicate WordAt(text: string, q: nat, w: string) {
    LiteralAt(text, q, w) && (q + |w| == |text| || !IsWordChar(text[q + |w|]))
  }

  /** A Notes, Rating or Archive Warning keyword, ignoring case, at q. */
  predicate KeywordAt(text: string, q: nat) {
    WordAt(text, q, "notes") || WordAt(text, q, "rating") || WordAt(text, q, "archive warning")
  }

  /** The lookahead holds at p: optional whitespace and a keyword, or `$`, which without
      MULTILINE matches at the end of the text and just before a final line feed. */
  predicate StopAt(text: string, p: nat)
    requires p <= |text|
  {
    KeywordAt(text, p + SpaceRun(text, p))
    || p == |text| || (p == |text| - 1 && text[p] == '\n')
  }

  /** search(): the first position from which the regex matches. */
  function FirstMatch(text: string, from: nat): (r: Option<nat>)
    ensures r.Some? ==> from <= r.value && CanMatchAt(text, r.value)
    decreases |text| - from
  {
    if from + 7 >= |text| then None
    else if CanMatchAt(text, from) then Some(from)
    else FirstMatch(text, from + 1)
  }

  /** search() finds the first position where the regex can match, and finds nothing
      only when there is no such position. */
  lemma {:induction false} FirstMatchIsFirst(text: string, from: nat)
    ensures var r := FirstMatch(text, from);
      && (r.Some? ==> forall j :: from <= j < r.value ==> !CanMatchAt(text, j))
      && (r.None? ==> forall j :: from <= j ==> !CanMatchAt(text, j))
    decreases |text| - from
  {
    if from + 7 < |text| && !CanMatchAt(text, from) {
      FirstMatchIsFirst(text, from + 1);
    }
  }

  /** Where the group starts for a match at i: after all the whitespace that follows
      "Summary", less one whitespace character when that whitespace reaches the end. */
  function GroupStart(text: string, i: nat): (start: nat)
    requires CanMatchAt(text, i)
    ensures i + 7 <= start < |text|
  {
    var w := SpaceRun(text, i + 7);
    if i + 7 + w < |text| then i + 7 + w else i + 7 + w - 1
  }

  /** The group begins after the whole whitespace run that follows "Summary", or at the
      last character when that run reaches the end of the text (`.+?` needs one). */
  lemma GroupStartSkipsSpaces(text: string, i: nat)
    requires CanMatchAt(text, i)
    ensures AllSpace(text[i + 7..GroupStart(text, i)])
    ensures i + 7 + SpaceRun(text, i + 7) < |text| ==> GroupStart(text, i) == i + 7 + SpaceRun(text, i + 7)
    ensures i + 7 + SpaceRun(text, i + 7) == |text| ==> GroupStart(text, i) == |text| - 1
  {
    var start := GroupStart(text, i);
    SpaceRunIsMaximal(text, i + 7);
    assert forall k :: i + 7 <= k < start ==> text[i + 7..start][k - (i + 7)] == text[k];
  }

  /** Where the lazy group ends: the first position from p on where the lookahead holds. */
  function GroupEnd(text: string, p: nat): (e: nat)
    requires p <= |text|
    ensures p <= e <= |text|
    decreases |text| - p
  {
    if StopAt(text, p) then p else GroupEnd(text, p + 1)
  }

  /** The lazy group ends where the lookahead holds. */
  lemma {:induction false} GroupEndStops(text: string, p: nat)
    requires p <= |text|
    ensures StopAt(text, GroupEnd(text, p))
    decreases |text| - p
  {
    if !StopAt(text, p) {
      GroupEndStops(text, p + 1);
    }
  }

  /** Positions text[start..end] of a captured group. */
  datatype Span = Span(start: nat, end: nat)

  /** The span of group 1 of the first match, if there is one. */
  function SummarySpan(text: string): (r: Option<Span>)
    ensures r.Some? ==> r.value.start < r.value.end <= |text|
  {
    match FirstMatch(text, 0)
    case None => None
    case Some(i) =>
      var start := GroupStart(text, i);
      Some(Span(start, GroupEnd(text, start + 1)))
  }

  /** The characters of s that are not whitespace. */
  function NonSpace(s: string): string
    decreases |s|
  {
    if s == [] then [] else (if IsSpace(s[0]) then [] else [s[0]]) + NonSpace(s[1..])
  }

  /** Whitespace occurs only as single spaces. */
  predicate SingleSpaced(s: string) {
    forall k :: 0 <= k < |s| && IsSpace(s[k]) ==> s[k] == ' ' && (k + 1 < |s| ==> !IsSpace(s[k + 1]))
  }

  /** The text left after the whitespace run at the start of s. */
  function DropSpaces(s: string): (r: string)
    ensures |r| <= |s| && r == s[|s| - |r|..]
    ensures r == [] || !IsSpace(r[0])
    decreases |s|
  {
    if s != [] && IsSpace(s[0]) then DropSpaces(s[1..]) else s
  }

  /** What is dropped is whitespace only, so the characters that are not whitespace
      are all kept. */
  lemma {:induction false} DropSpacesFacts(s: string)
    ensures forall k :: 0 <= k < |s| - |DropSpaces(s)| ==> IsSpace(s[k])
    ensures NonSpace(DropSpaces(s)) == NonSpace(s)
    decreases |s|
  {
    if s != [] && IsSpace(s[0]) {
      DropSpacesFacts(s[1..]);
      assert NonSpace(s) == NonSpace(s[1..]);
    }
  }

  /** re.sub(r'\s+', ' ', s): every maximal whitespace run becomes one space. */
  function Collapse(s: string): string
    decreases |s|
  {
    if s == [] then []
    else if IsSpace(s[0]) then [' '] + Collapse(DropSpaces(s))
    else [s[0]] + Collapse(s[1..])
  }

  /** Nothing but the whitespace runs changes: the result holds whitespace only as single
      spaces, and the characters that are not whitespace stay in order. */
  lemma {:induction false} CollapseShape(s: string)
    ensures SingleSpaced(Collapse(s))
    ensures NonSpace(Collapse(s)) == NonSpace(s)
    decreases |s|
  {
    if s != [] && IsSpace(s[0]) {
      var rest := DropSpaces(s);
      DropSpacesFacts(s);
      CollapseShape(rest);
      CollapseEnds(rest);
      ConsFacts(' ', Collapse(rest));
    } else if s != [] {
      CollapseShape(s[1..]);
      ConsFacts(s[0], Collapse(s[1..]));
      assert NonSpace(s) == [s[0]] + NonSpace(s[1..]);
    }
  }

  /** The result is empty only for the empty text, and it starts (ends) with a space
      exactly when s starts (ends) with whitespace. */
  lemma CollapseEnds(s: string)
    ensures Collapse(s) == [] <==> s == []
    ensures Collapse(s) != [] ==> (IsSpace(Collapse(s)[0]) <==> IsSpace(s[0]))
    ensures Collapse(s) != [] ==> (IsSpace(Collapse(s)[|Collapse(s)| - 1]) <==> IsSpace(s[|s| - 1]))
  {
    if s != [] {
      CollapseLast(s);
      assert Collapse(s)[0] == if IsSpace(s[0]) then ' ' else s[0];
    }
  }

  /** The last character of the result is whitespace exactly when that of s is. */
  lemma {:induction false} CollapseLast(s: string)
    requires s != []
    ensures Collapse(s) != [] && (IsSpace(Collapse(s)[|Collapse(s)| - 1]) <==> IsSpace(s[|s| - 1]))
    decreases |s|
  {
    var rest := if IsSpace(s[0]) then DropSpaces(s) else s[1..];
    var c := if IsSpace(s[0]) then ' ' else s[0];
    assert Collapse(s) == [c] + Collapse(rest);
    if IsSpace(s[0]) {
      DropSpacesFacts(s);
    }
    if rest == [] {
      assert IsSpace(c) <==> IsSpace(s[|s| - 1]);
    } else {
      CollapseLast(rest);
      assert rest[|rest| - 1] == s[|s| - 1];
    }
  }

  /** What putting one character in front does to NonSpace and SingleSpaced. */
  lemma ConsFacts(c: char, t: string)
    ensures NonSpace([c] + t) == (if IsSpace(c) then [] else [c]) + NonSpace(t)
    ensures SingleSpaced(t) && (IsSpace(c) ==> c == ' ' && (t == [] || !IsSpace(t[0]))) ==> SingleSpaced([c] + t)
  {
    var r := [c] + t;
    assert r[0] == c && r[1..] == t;
    assert forall k :: 1 <= k < |r| ==> r[k] == t[k - 1];
  }

  // ---------------------------------------------------------------------------
  // Words: the reference for strip() followed by the collapse of whitespace runs

  /** Length of the run of characters that are not whitespace at the start of s. */
  function WordLen(s: string): (n: nat)
    ensures n <= |s|
    ensures n < |s| ==> IsSpace(s[n])
    decreases |s|
  {
    if s != [] && !IsSpace(s[0]) then 1 + WordLen(s[1..]) else 0
  }

  /** The run holds no whitespace. */
  lemma {:induction false} WordLenIsRun(s: string)
    ensures forall k :: 0 <= k < WordLen(s) ==> !IsSpace(s[k])
    decreases |s|
  {
    if s != [] && !IsSpace(s[0]) {
      WordLenIsRun(s[1..]);
      assert forall k :: 1 <= k < WordLen(s) ==> s[k] == s[1..][k - 1];
    }
  }

  /** The words of s: its maximal runs of characters that are not whitespace, in order. */
  function Words(s: string): seq<string>
    decreases |s|
  {
    if s == [] then []
    else if IsSpace(s[0]) then Words(s[1..])
    else
      var n := WordLen(s);
      assert n > 0;
      [s[..n]] + Words(s[n..])
  }

  /** Every word is non-empty and holds no whitespace. */
  lemma {:induction false} WordsAreRuns(s: string)
    ensures forall k :: 0 <= k < |Words(s)| ==> Words(s)[k] != [] && AllNonSpace(Words(s)[k])
    decreases |s|
  {
    if s != [] && IsSpace(s[0]) {
      WordsAreRuns(s[1..]);
    } else if s != [] {
      var n := WordLen(s);
      WordLenIsRun(s);
      WordsAreRuns(s[n..]);
      assert forall j :: 0 <= j < n ==> s[..n][j] == s[j];
      assert Words(s) == [s[..n]] + Words(s[n..]);
    }
  }

  predicate AllNonSpace(s: string) {
    forall j :: 0 <= j < |s| ==> !IsSpace(s[j])
  }

  /** Leading whitespace holds no word. */
  lemma {:induction false} WordsSkipSpaces(s: string, k: nat)
    requires k <= |s| && AllSpace(s[..k])
    ensures Words(s) == Words(s[k..])
    decreases k
  {
    if k > 0 {
      assert IsSpace(s[..k][0]);
      assert s[1..][..k - 1] == s[1..k];
      assert forall j :: 0 <= j < k - 1 ==> s[1..k][j] == s[..k][j + 1];
      WordsSkipSpaces(s[1..], k - 1);
      assert s[1..][k - 1..] == s[k..];
    }
  }

  /** A word ends where whitespace, or the text, begins. */
  lemma {:induction false} WordLenAppend(x: string, y: string)
    requires y == [] || IsSpace(y[0])
    ensures WordLen(x + y) == WordLen(x)
    decreases |x|
  {
    if x != [] {
      assert (x + y)[0] == x[0] && (x + y)[1..] == x[1..] + y;
      WordLenAppend(x[1..], y);
    } else {
      assert x + y == y;
    }
  }

  /** Trailing whitespace holds no word. */
  lemma {:induction false} WordsDropTrailing(x: string, y: string)
    requires AllSpace(y)
    ensures Words(x + y) == Words(x)
    decreases |x|
  {
    var s := x + y;
    if x == [] {
      assert s == y && y[..|y|] == y && y[|y|..] == [];
      WordsSkipSpaces(y, |y|);
    } else if IsSpace(x[0]) {
      assert s[0] == x[0] && s[1..] == x[1..] + y;
      WordsDropTrailing(x[1..], y);
    } else {
      WordLenAppend(x, y);
      var n := WordLen(x);
      assert s[0] == x[0];
      assert s[..n] == x[..n] && s[n..] == x[n..] + y;
      WordsDropTrailing(x[n..], y);
    }
  }

  /** Stripping keeps the words. */
  lemma WordsOfStrip(s: string)
    ensures Words(Strip(s)) == Words(s)
  {
    var a, b :| 0 <= a <= b <= |s| && Strip(s) == s[a..b] && AllSpace(s[..a]) && AllSpace(s[b..]);
    WordsSkipSpaces(s, a);
    assert s[a..] == s[a..b] + s[b..];
    WordsDropTrailing(s[a..b], s[b..]);
  }

  /** Collapsing characters that are not whitespace copies them. */
  lemma {:induction false} CollapsePrefix(s: string, k: nat)
    requires k <= |s| && forall j :: 0 <= j < k ==> !IsSpace(s[j])
    ensures Collapse(s) == s[..k] + Collapse(s[k..])
    decreases k
  {
    if k > 0 {
      CollapsePrefix(s[1..], k - 1);
      assert s[1..][..k - 1] == s[1..k] && s[1..][k - 1..] == s[k..];
      assert s[..k] == [s[0]] + s[1..k];
    }
  }

  /** Between two words: the whitespace run before the next word collapses to one space
      and holds no word. */
  lemma SpaceBeforeWord(rest: string)
    requires rest != [] && IsSpace(rest[0]) && !IsSpace(rest[|rest| - 1])
    ensures var t := DropSpaces(rest);
      && t != [] && Trimmed(t) && |t| < |rest|
      && Words(rest) == Words(t) && Words(t) != []
      && Collapse(rest) == " " + Collapse(t)
  {
    var t := DropSpaces(rest);
    var m := |rest| - |t|;
    DropSpacesFacts(rest);
    assert t != [] && t[|t| - 1] == rest[|rest| - 1];
    assert rest[m..] == t;
    assert forall j :: 0 <= j < m ==> rest[..m][j] == rest[j];
    WordsSkipSpaces(rest, m);
    assert !IsSpace(t[0]);
  }

  /** On a stripped text, collapsing each whitespace run to one space gives the words
      joined by single spaces. */
  /** The last step of CollapseWords, over plain values: a word, one space, then the
      joined remaining words is the join of the whole list. */
  lemma JoinStep(c: string, w: string, cr: string, ct: string, ws: seq<string>, all: seq<string>)
    requires c == w + cr && cr == " " + ct && ct == Join(" ", ws)
    requires ws != [] && all == [w] + ws
    ensures c == Join(" ", all)
  {
    JoinCons(" ", w, ws);
  }

  lemma {:induction false} CollapseWords(s: string)
    requires Trimmed(s)
    ensures Collapse(s) == Join(" ", Words(s))
    decreases |s|
  {
    if s != [] {
      var n := WordLen(s);
      var w := s[..n];
      var rest := s[n..];
      WordLenIsRun(s);
      CollapsePrefix(s, n);
      assert Words(s) == [w] + Words(rest);
      if rest == [] {
        assert s[..n] == s;
      } else {
        assert rest[|rest| - 1] == s[|s| - 1];
        SpaceBeforeWord(rest);
        var t := DropSpaces(rest);
        CollapseWords(t);
        JoinStep(Collapse(s), w, Collapse(rest), Collapse(t), Words(t), Words(s));
      }
    }
  }

  /** The result of extract_summary_from_text: None exactly when no match exists;
      otherwise the group, stripped, with whitespace runs collapsed: the words of the
      group joined by single spaces. */
  function ExtractSummary(text: string): (r: Option<string>)
    ensures r.None? <==> FirstMatch(text, 0).None?
    ensures r.Some? ==> SingleSpaced(r.value) && Trimmed(r.value)
    ensures r.Some? ==>
              && SummarySpan(text).Some?
              && r.value == Join(" ", Words(text[SummarySpan(text).value.start..SummarySpan(text).value.end]))
  {
    match SummarySpan(text)
    case None => None
    case Some(span) =>
      var g := text[span.start..span.end];
      var s := Strip(g);
      WordsOfStrip(g);
      CollapseWords(s);
      CollapseShape(s);
      CollapseEnds(s);
      var c := Collapse(s);
      Some(c)
  }

  /** extract_summary_from_text returns None exactly when "Summary" occurs nowhere with a
      character after it. */
  lemma ExtractSummaryNone(text: string)
    ensures ExtractSummary(text).None? <==> forall i: nat :: !CanMatchAt(text, i)
  {
    FirstMatchIsFirst(text, 0);
  }

  /** The summary never reaches past a Notes, Rating or Archive Warning keyword that
      stands, after optional whitespace, anywhere after the start of the group. */
  lemma SummaryStopsAtKeyword(text: string, q: nat)
    requires SummarySpan(text).Some?
    requires SummarySpan(text).value.start < q <= |text| && KeywordAt(text, q + SpaceRun(text, q))
    ensures SummarySpan(text).value.end <= q
  {
    assert StopAt(text, q);
    SpanEndsAtFirstStop(text, q);
  }

  /** The group ends at the first lookahead position after its start. */
  lemma SpanEndsAtFirstStop(text: string, q: nat)
    requires SummarySpan(text).Some?
    requires SummarySpan(text).value.start < q <= |text| && StopAt(text, q)
    ensures SummarySpan(text).value.end <= q
  {
    SpanOfFirstMatch(text);
    var sp := SummarySpan(text).value;
    GroupEndIsFirstStop(text, sp.start + 1, q);
    assert sp.end == GroupEnd(text, sp.start + 1) <= q;
  }

  lemma SpanOfFirstMatch(text: string)
    requires FirstMatch(text, 0).Some?
    ensures SummarySpan(text).Some?
    ensures SummarySpan(text).value.start == GroupStart(text, FirstMatch(text, 0).value)
    ensures SummarySpan(text).value.end == GroupEnd(text, SummarySpan(text).value.start + 1)
  {
  }

  lemma {:induction false} GroupEndIsFirstStop(text: string, p: nat, q: nat)
    requires p <= q <= |text| && StopAt(text, q)
    ensures GroupEnd(text, p) <= q
    decreases q - p
  {
    if p < q && !StopAt(text, p) {
      GroupEndIsFirstStop(text, p + 1, q);
      assert GroupEnd(text, p) == GroupEnd(text, p + 1);
    }
  }

  /** The summary is taken from the first "Summary" occurrence with text after it. */
  lemma SummaryStartsAfterFirstMarker(text: string, i: nat)
    requires CanMatchAt(text, i)
    requires forall j :: 0 <= j < i ==> !CanMatchAt(text, j)
    ensures SummarySpan(text).Some?
    ensures SummarySpan(text).value.start == GroupStart(text, i)
  {
    FirstMatchIsFirst(text, 0);
    assert FirstMatch(text, 0) == Some(i);
  }
}
