/**
  `fallback_title_from_filename`: the title derived from a document's URL when the
  text gives none. The path's basename loses every ".pdf", underscores become spaces,
  percent-escapes are decoded and the result is stripped.
*/
module FilenameTitle {
  import opened Text

  /** The prefix of s before the first c (all of s when c does not occur). */
  function BeforeFirst(s: string, c: char): (r: string)
    ensures c !in r
    ensures |r| <= |s| && r == s[..|r|]
    ensures |r| < |s| ==> s[|r|] == c
    decreases |s|
  {
    if s == [] then []
    else if s[0] == c then []
    else [s[0]] + BeforeFirst(s[1..], c)
  }

  /** The first position of "://" in s, if any. */
  function SchemeEnd(s: string, from: nat): (r: int)
    ensures r == -1 || (from <= r && OccursAt(s, "://", r))
    ensures r >= 0 ==> forall j :: from <= j < r ==> !OccursAt(s, "://", j)
    ensures r == -1 ==> forall j :: from <= j ==> !OccursAt(s, "://", j)
    decreases |s| - from
  {
    if from + 3 > |s| then -1
    else if s[from..from + 3] == "://" then from
    else SchemeEnd(s, from + 1)
  }

  /** The path component of a URL: the fragment (from '#') and the query (from '?')
      are cut off, then the scheme and the network location ("scheme://host"). */
  function UrlPath(url: string): (path: string)
    ensures |path| <= |url|
  {
    var u := BeforeFirst(BeforeFirst(url, '#'), '?');
    var colon := SchemeEnd(u, 0);
    if colon < 0 then u
    else
      var rest := u[colon + 3..];
      var host := BeforeFirst(rest, '/');
      rest[|host|..]
  }

  /** os.path.basename: what follows the last '/'. */
  function Basename(path: string): (b: string)
    ensures '/' !in b
    ensures |b| <= |path| && b == path[|path| - |b|..]
    ensures |b| < |path| ==> path[|path| - |b| - 1] == '/'
    decreases |path|
  {
    if path == [] then []
    else if path[|path| - 1] == '/' then []
    else
      var init := path[..|path| - 1];
      var b := Basename(init);
      assert path == init + [path[|path| - 1]];
      assert path[|path| - |b| - 1..] == init[|init| - |b|..] + [path[|path| - 1]];
      b + [path[|path| - 1]]
  }

  /** The basename of a path ending in "/" + b, where b has no '/', is b. */
  lemma {:induction false} BasenameOfLastSegment(dir: string, b: string)
    requires '/' !in b
    ensures Basename(dir + "/" + b) == b
    decreases |b|
  {
    var p := dir + "/" + b;
    if b != [] {
      var init := b[..|b| - 1];
      assert p[..|p| - 1] == dir + "/" + init;
      assert p[|p| - 1] == b[|b| - 1];
      BasenameOfLastSegment(dir, init);
      assert init + [b[|b| - 1]] == b;
    }
  }

  predicate IsHexDigit(c: char) {
    IsDigit(c) || 'a' <= c <= 'f' || 'A' <= c <= 'F'
  }

  function HexValue(c: char): (v: nat)
    requires IsHexDigit(c)
    ensures v < 16
    ensures IsDigit(c) <==> v < 10
  {
    if IsDigit(c) then c as int - '0' as int
    else if 'a' <= c <= 'f' then c as int - 'a' as int + 10
    else c as int - 'A' as int + 10
  }

  /** urllib.parse.unquote: "%" and two hex digits (either case) become the character
      of that code; any other "%" stays as it is. */
  function PercentDecode(s: string): string
    decreases |s|
  {
    if s == [] then []
    else if |s| >= 3 && s[0] == '%' && IsHexDigit(s[1]) && IsHexDigit(s[2]) then
      [(16 * HexValue(s[1]) + HexValue(s[2])) as char] + PercentDecode(s[3..])
    else [s[0]] + PercentDecode(s[1..])
  }

  /** Characters urllib.parse.quote leaves alone (with its default safe "/"). */
  predicate Unreserved(c: char) {
    IsLetter(c) || IsDigit(c) || c == '-' || c == '.' || c == '_' || c == '~' || c == '/'
  }

  predicate NeedsEscape(c: char) {
    c as int < 128 && !Unreserved(c)
  }

  function HexDigitChar(n: nat): (c: char)
    requires n < 16
    ensures IsHexDigit(c) && HexValue(c) == n
  {
    if n < 10 then ('0' as int + n) as char else ('A' as int + n - 10) as char
  }

  /** Reading a hex digit, either case, and writing its value back gives the digit in
      upper case: the value of each of the 22 hex digits is fixed. */
  lemma HexValueInverse(c: char)
    requires IsHexDigit(c)
    ensures HexDigitChar(HexValue(c)) == UpperChar(c)
  {
  }

  function EscapeChar(c: char): (r: string)
  {
    if NeedsEscape(c) then ['%', HexDigitChar(c as int / 16), HexDigitChar(c as int % 16)]
    else [c]
  }

  /** urllib.parse.quote on ASCII: every reserved ASCII character, '%' included, becomes
      "%" and two upper-case hex digits; decoding is its inverse. */
  function PercentEncode(s: string): (r: string)
    decreases |s|
  {
    if s == [] then [] else EscapeChar(s[0]) + PercentEncode(s[1..])
  }

  /** Decoding undoes encoding, for every string. */
  lemma {:induction false} DecodeEncode(s: string)
    ensures PercentDecode(PercentEncode(s)) == s
    decreases |s|
  {
    if s != [] {
      var c := s[0];
      var e := PercentEncode(s[1..]);
      assert PercentEncode(s) == EscapeChar(c) + e;
      DecodeEncode(s[1..]);
      if NeedsEscape(c) {
        var t := EscapeChar(c) + e;
        assert t[0] == '%' && t[1] == HexDigitChar(c as int / 16) && t[2] == HexDigitChar(c as int % 16);
        assert t[3..] == e;
        assert (16 * (c as int / 16) + c as int % 16) as char == c;
      } else {
        assert c != '%';
        assert (EscapeChar(c) + e)[1..] == e;
      }
    }
  }

  /** Text without '%' is left as it is by decoding. */
  lemma {:induction false} DecodeWithoutPercent(s: string)
    requires '%' !in s
    ensures PercentDecode(s) == s
    decreases |s|
  {
    if s != [] {
      assert s[0] in s;
      assert forall k :: 0 <= k < |s| - 1 ==> s[1..][k] == s[k + 1];
      DecodeWithoutPercent(s[1..]);
    }
  }

  /** The title taken from a URL path. */
  function FallbackTitle(path: string): (title: string)
    ensures Trimmed(title)
  {
    Strip(PercentDecode(ReplaceAll(ReplaceAll(Basename(path), ".pdf", ""), "_", " ")))
  }

  /** Replacing never introduces a character that neither the text nor the replacement has. */
  lemma {:induction false} ReplaceAllAvoids(s: string, pat: string, rep: string, c: char)
    requires pat != [] && c !in s && c !in rep
    ensures c !in ReplaceAll(s, pat, rep)
    decreases |s|
  {
    if |s| >= |pat| {
      assert forall k :: 0 <= k < |s| - |pat| ==> s[|pat|..][k] == s[k + |pat|];
      assert forall k :: 0 <= k < |s| - 1 ==> s[1..][k] == s[k + 1];
      if s[..|pat|] == pat {
        ReplaceAllAvoids(s[|pat|..], pat, rep, c);
      } else {
        assert s[0] in s;
        ReplaceAllAvoids(s[1..], pat, rep, c);
      }
    }
  }

  /** Appending ".pdf" to a name adds nothing after the removal of ".pdf": no occurrence
      of ".pdf" can start inside the name and end inside the suffix. */
  lemma {:induction false} RemovePdfSuffix(x: string)
    ensures ReplaceAll(x + ".pdf", ".pdf", "") == ReplaceAll(x, ".pdf", "")
    decreases |x|
  {
    var p := ".pdf";
    var t := x + p;
    if x == [] {
      assert t == p;
      assert t[4..] == [];
    } else if |x| >= 4 && x[..4] == p {
      assert t[..4] == p;
      assert t[4..] == x[4..] + p;
      RemovePdfSuffix(x[4..]);
    } else {
      assert t[..4] != p by {
        if |x| >= 4 {
          assert t[..4] == x[..4];
        } else {
          assert t[|x|] == '.';
          assert t[..4][|x|] == '.';
        }
      }
      assert t[1..] == x[1..] + p;
      RemovePdfSuffix(x[1..]);
      if |x| < 4 {
        assert ReplaceAll(x[1..], p, "") == x[1..];
        assert [x[0]] + x[1..] == x;
      }
    }
  }

  /** For a document named stem + ".pdf" whose stem has no '/' and no '%', the fallback
      title is the stem, with every ".pdf" removed and underscores turned into spaces,
      stripped. */
  lemma FallbackTitleOfPdfName(dir: string, stem: string)
    requires '/' !in stem && '%' !in stem
    ensures FallbackTitle(dir + "/" + stem + ".pdf")
         == Strip(ReplaceAll(ReplaceAll(stem, ".pdf", ""), "_", " "))
  {
    assert dir + "/" + stem + ".pdf" == dir + "/" + (stem + ".pdf");
    assert '/' !in stem + ".pdf";
    BasenameOfLastSegment(dir, stem + ".pdf");
    RemovePdfSuffix(stem);
    var removed := ReplaceAll(stem, ".pdf", "");
    ReplaceAllAvoids(stem, ".pdf", "", '%');
    ReplaceAllAvoids(removed, "_", " ", '%');
    DecodeWithoutPercent(ReplaceAll(removed, "_", " "));
  }
}
