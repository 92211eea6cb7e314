/**
  The reference extractor: `pattern.findall(text)` for the pattern
  `http://archiveofourown\.org/works/(\d+)`, and the canonical work URL built from
  each identifier it returns.
*/
module WorkLinks {
  import opened Text

  /** The literal part of the reference pattern. */
  const LinkPrefix: string := "http://archiveofourown.org/works/"

  /** The base of every canonical work URL. */
  const CanonicalPrefix: string := "https://archiveofourown.org/works/"

  /** The pattern matches at position i: the literal prefix followed by at least one digit. */
  predicate MatchAt(text: string, i: nat) {
    i + |LinkPrefix| < |text| && text[i..i + |LinkPrefix|] == LinkPrefix
    && IsDigit(text[i + |LinkPrefix|])
  }

  /** Length of the run of digits that starts at j; `\d+` is greedy, so it takes all of them. */
  function DigitRun(text: string, j: nat): (n: nat)
    requires j <= |text|
    ensures j + n <= |text|
    ensures forall k :: j <= k < j + n ==> IsDigit(text[k])
    ensures j + n == |text| || !IsDigit(text[j + n])
    decreases |text| - j
  {
    if j < |text| && IsDigit(text[j]) then 1 + DigitRun(text, j + 1) else 0
  }

  /** The captured group of the match at i: the maximal digit run after the prefix. */
  function IdAt(text: string, i: nat): (id: string)
    requires MatchAt(text, i)
    ensures id != [] && AllDigits(id)
    ensures i + |LinkPrefix| + |id| <= |text| && id == text[i + |LinkPrefix|..i + |LinkPrefix| + |id|]
  {
    var j := i + |LinkPrefix|;
    text[j..j + DigitRun(text, j)]
  }

  /** Where the scan resumes after the match at i. */
  function MatchEnd(text: string, i: nat): (e: nat)
    requires MatchAt(text, i)
    ensures i < e <= |text|
  {
    i + |LinkPrefix| + DigitRun(text, i + |LinkPrefix|)
  }

  /** findall from position i: try to match at i; on success record the group and
      continue after the match, otherwise continue at i + 1. */
  function ScanFrom(text: string, i: nat): (ids: seq<string>)
    ensures forall k :: 0 <= k < |ids| ==> ids[k] != [] && AllDigits(ids[k])
    decreases |text| - i
  {
    if i >= |text| then []
    else if MatchAt(text, i) then [IdAt(text, i)] + ScanFrom(text, MatchEnd(text, i))
    else ScanFrom(text, i + 1)
  }

  /** pattern.findall(text). */
  function FindWorkIds(text: string): (ids: seq<string>)
  {
    ScanFrom(text, 0)
  }

  /** The work URL built from an identifier, with the https scheme. */
  function CanonicalUrl(id: string): (url: string)
  {
    CanonicalPrefix + id
  }

  /** Reference definition: the group of every position where the pattern matches,
      in text order, regardless of overlap. */
  function MatchesFrom(text: string, i: nat): seq<string>
    decreases |text| - i
  {
    if i >= |text| then []
    else (if MatchAt(text, i) then [IdAt(text, i)] else []) + MatchesFrom(text, i + 1)
  }

  /** The only 'h' of the literal prefix after its first character is the one of
      "archive", and it is not followed by 't'. */
  lemma PrefixLetters()
    ensures forall d :: 0 < d < |LinkPrefix| && d != 10 ==> LinkPrefix[d] != 'h'
    ensures LinkPrefix[11] == 'i'
  {
  }

  /** No match starts inside an earlier match, so matches never overlap. */
  lemma {:induction false} NoMatchInside(text: string, i: nat, j: nat)
    requires MatchAt(text, i)
    requires i < j < MatchEnd(text, i)
    ensures !MatchAt(text, j)
  {
    PrefixLetters();
    var p := |LinkPrefix|;
    if j + p < |text| {
      var w := text[j..j + p];
      assert w[0] == text[j] && w[1] == text[j + 1];
      if j < i + p {
        assert text[j] == LinkPrefix[j - i];
        if j - i == 10 {
          assert text[j + 1] == LinkPrefix[11];
        }
      } else {
        assert j < i + p + DigitRun(text, i + p);
        assert IsDigit(text[j]);
        assert LinkPrefix[0] == 'h' && !IsDigit('h');
        assert w[0] != LinkPrefix[0];
      }
      assert w != LinkPrefix;
    }
  }

  /** Positions without a match contribute nothing. */
  lemma {:induction false} SkipNoMatch(text: string, a: nat, b: nat)
    requires a <= b
    requires forall j :: a <= j < b ==> !MatchAt(text, j)
    ensures MatchesFrom(text, a) == MatchesFrom(text, b)
    decreases b - a
  {
    if a < b && a < |text| {
      SkipNoMatch(text, a + 1, b);
    } else if a < b {
      assert MatchesFrom(text, a) == [] == MatchesFrom(text, b);
    }
  }

  /** The scan that skips over each match yields exactly the groups of all match
      positions, in text order, duplicates included. */
  lemma {:induction false} ScanFindsAllMatches(text: string, i: nat)
    ensures ScanFrom(text, i) == MatchesFrom(text, i)
    decreases |text| - i
  {
    if i < |text| {
      if MatchAt(text, i) {
        var e := MatchEnd(text, i);
        forall j | i + 1 <= j < e ensures !MatchAt(text, j) {
          NoMatchInside(text, i, j);
        }
        SkipNoMatch(text, i + 1, e);
        ScanFindsAllMatches(text, e);
      } else {
        ScanFindsAllMatches(text, i + 1);
      }
    }
  }

  /** findall's result, element by element: the k-th identifier is the maximal digit
      run after the k-th occurrence of the prefix that is followed by a digit. */
  lemma FindWorkIdsSpec(text: string)
    ensures FindWorkIds(text) == MatchesFrom(text, 0)
  {
    ScanFindsAllMatches(text, 0);
  }

  /** Where a canonical URL has an 'h', and what follows the two of them. */
  lemma CanonicalLetters(id: string)
    requires AllDigits(id)
    ensures forall k :: 0 <= k < |CanonicalUrl(id)| && CanonicalUrl(id)[k] == 'h' ==> k == 0 || k == 11
    ensures CanonicalUrl(id)[4] == 's' && CanonicalUrl(id)[12] == 'i'
  {
    var u := CanonicalUrl(id);
    forall k | 0 <= k < |u| ensures u[k] == 'h' ==> k == 0 || k == 11 {
      if k >= |CanonicalPrefix| {
        assert u[k] == id[k - |CanonicalPrefix|];
      }
    }
  }

  /** Canonical (https) work URLs are not references: findall finds nothing in one. */
  lemma {:induction false} CanonicalUrlNotMatched(id: string)
    requires AllDigits(id)
    ensures FindWorkIds(CanonicalUrl(id)) == []
  {
    var u := CanonicalUrl(id);
    CanonicalLetters(id);
    forall j | 0 <= j < |u| ensures !MatchAt(u, j) {
      if j + |LinkPrefix| < |u| {
        var w := u[j..j + |LinkPrefix|];
        assert w[0] == u[j];
        if j == 0 {
          assert w[4] == 's' != LinkPrefix[4];
        } else if j == 11 {
          assert w[1] == u[12] != LinkPrefix[1];
        }
      }
    }
    SkipNoMatch(u, 0, |u|);
    FindWorkIdsSpec(u);
  }

  /** A non-empty result comes from a match position. */
  lemma {:induction false} MatchBehindEveryId(text: string, i: nat)
    requires MatchesFrom(text, i) != []
    ensures exists j :: i <= j < |text| && MatchAt(text, j)
    decreases |text| - i
  {
    if !MatchAt(text, i) {
      MatchBehindEveryId(text, i + 1);
    }
  }

  /** A text in which findall finds an identifier is not blank. */
  lemma FoundIdsNotBlank(text: string)
    requires FindWorkIds(text) != []
    ensures !AllSpace(text)
  {
    FindWorkIdsSpec(text);
    MatchBehindEveryId(text, 0);
    var j :| 0 <= j < |text| && MatchAt(text, j);
    assert text[j] == text[j..j + |LinkPrefix|][0] == 'h';
  }
}
