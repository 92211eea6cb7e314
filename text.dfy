/**
  Character classes and the few str methods the script relies on: strip, lower,
  startswith, replace, join and the concatenation of page texts.

  Character classes are those of Python's str methods and of its `re` module,
  restricted to ASCII (see README).
*/
module Text {

  /** str.isspace() on ASCII: tab, line feed, vertical tab, form feed, carriage return,
      the four information separators 0x1C..0x1F, and the space. */
  predicate IsSpace(c: char) {
    c == ' ' || (9 <= c as int <= 13) || (28 <= c as int <= 31)
  }

  /** The ASCII line boundaries of str.splitlines(). */
  predicate IsLineBreak(c: char) {
    (10 <= c as int <= 13) || (28 <= c as int <= 30)
  }

  predicate IsDigit(c: char) { '0' <= c <= '9' }

  predicate IsUpper(c: char) { 'A' <= c <= 'Z' }

  predicate IsLower(c: char) { 'a' <= c <= 'z' }

  predicate IsLetter(c: char) { IsUpper(c) || IsLower(c) }

  /** A word character of the `re` module's `\b`: letters, digits and the underscore. */
  predicate IsWordChar(c: char) { IsLetter(c) || IsDigit(c) || c == '_' }

  predicate AllSpace(s: string) {
    forall k :: 0 <= k < |s| ==> IsSpace(s[k])
  }

  predicate AllDigits(s: string) {
    forall k :: 0 <= k < |s| ==> IsDigit(s[k])
  }

  /** Neither the first nor the last character is whitespace. */
  predicate Trimmed(s: string) {
    s == [] || (!IsSpace(s[0]) && !IsSpace(s[|s| - 1]))
  }

  /** str.lower() on one ASCII character: an upper-case letter becomes the lower-case
      letter whose upper case it is. */
  function LowerChar(c: char): (r: char)
    ensures IsUpper(c) ==> IsLower(r) && UpperChar(r) == c
    ensures !IsUpper(c) ==> r == c
  {
    if IsUpper(c) then (c as int + 32) as char else c
  }

  function UpperChar(c: char): (r: char)
    ensures IsLower(c) ==> IsUpper(r)
    ensures !IsLower(c) ==> r == c
  {
    if IsLower(c) then (c as int - 32) as char else c
  }

  /** str.lower() on ASCII letters. */
  function Lower(s: string): (r: string)
    ensures |r| == |s|
  {
    seq(|s|, i requires 0 <= i < |s| => LowerChar(s[i]))
  }

  /** The first position from i on that does not hold whitespace (|s| if none). */
  function SkipSpaces(s: string, i: nat): (a: nat)
    requires i <= |s|
    ensures i <= a <= |s| && (a < |s| ==> !IsSpace(s[a]))
    decreases |s| - i
  {
    if i < |s| && IsSpace(s[i]) then SkipSpaces(s, i + 1) else i
  }

  /** The end of s[a..j] once its trailing whitespace is dropped. */
  function BackSpaces(s: string, a: nat, j: nat): (b: nat)
    requires a <= j <= |s|
    ensures a <= b <= j && (a < b ==> !IsSpace(s[b - 1]))
    decreases j
  {
    if a < j && IsSpace(s[j - 1]) then BackSpaces(s, a, j - 1) else j
  }

  /** str.strip() with no argument: the slice between the leading and the trailing
      whitespace. */
  function Strip(s: string): (r: string)
    ensures Trimmed(r)
    ensures Trimmed(s) ==> r == s
    ensures |r| <= |s|
    ensures exists a, b :: 0 <= a <= b <= |s| && r == s[a..b] && AllSpace(s[..a]) && AllSpace(s[b..])
  {
    var a := SkipSpaces(s, 0);
    var b := BackSpaces(s, a, |s|);
    assert s != [] && !IsSpace(s[0]) ==> a == 0;
    assert s != [] && !IsSpace(s[|s| - 1]) ==> b == |s|;
    SkipSpacesSkipsSpace(s, 0);
    BackSpacesSkipsSpace(s, a, |s|);
    assert AllSpace(s[..a]) && AllSpace(s[b..]);
    s[a..b]
  }

  lemma {:induction false} BackSpacesSkipsSpace(s: string, a: nat, j: nat)
    requires a <= j <= |s|
    ensures forall k :: BackSpaces(s, a, j) <= k < j ==> IsSpace(s[k])
    decreases j
  {
    if a < j && IsSpace(s[j - 1]) {
      BackSpacesSkipsSpace(s, a, j - 1);
    }
  }

  lemma {:induction false} SkipSpacesSkipsSpace(s: string, i: nat)
    requires i <= |s|
    ensures forall k :: i <= k < SkipSpaces(s, i) ==> IsSpace(s[k])
    decreases |s| - i
  {
    if i < |s| && IsSpace(s[i]) {
      SkipSpacesSkipsSpace(s, i + 1);
    }
  }

  lemma {:induction false} BackSpacesKeepsStart(s: string, a: nat, j: nat)
    requires a < j <= |s| && !IsSpace(s[a])
    ensures a < BackSpaces(s, a, j)
    decreases j
  {
    if IsSpace(s[j - 1]) {
      BackSpacesKeepsStart(s, a, j - 1);
    }
  }

  /** strip() gives the empty string exactly for a text of whitespace only, and what it
      drops is whitespace. */
  lemma StripEmpty(s: string)
    ensures Strip(s) == [] <==> AllSpace(s)
  {
    var a := SkipSpaces(s, 0);
    SkipSpacesSkipsSpace(s, 0);
    if a < |s| {
      BackSpacesKeepsStart(s, a, |s|);
    }
  }

  predicate StartsWith(s: string, prefix: string) {
    |prefix| <= |s| && s[..|prefix|] == prefix
  }

  /** pat occurs in s at position k. */
  predicate OccursAt(s: string, pat: string, k: int) {
    0 <= k && k + |pat| <= |s| && s[k..k + |pat|] == pat
  }

  /** str.replace(pat, rep) for a non-empty pat: every occurrence found by a
      left-to-right scan that skips over each replaced occurrence. */
  function ReplaceAll(s: string, pat: string, rep: string): string
    requires pat != []
    decreases |s|
  {
    if |s| < |pat| then s
    else if s[..|pat|] == pat then rep + ReplaceAll(s[|pat|..], pat, rep)
    else [s[0]] + ReplaceAll(s[1..], pat, rep)
  }

  /** Replacing a pattern that does not occur changes nothing. */
  lemma {:induction false} ReplaceAbsent(s: string, pat: string, rep: string)
    requires pat != []
    requires forall k :: !OccursAt(s, pat, k)
    ensures ReplaceAll(s, pat, rep) == s
    decreases |s|
  {
    if |s| >= |pat| {
      assert !OccursAt(s, pat, 0);
      assert s[..|pat|] != pat;
      forall k ensures !OccursAt(s[1..], pat, k) {
        if 0 <= k && k + |pat| <= |s| - 1 {
          assert s[1..][k..k + |pat|] == s[k + 1..k + 1 + |pat|];
          assert !OccursAt(s, pat, k + 1);
        }
      }
      ReplaceAbsent(s[1..], pat, rep);
    }
  }

  /** Replacing one character by another is a character-wise map. */
  lemma {:induction false} ReplaceOneChar(s: string, c: char, d: char)
    ensures |ReplaceAll(s, [c], [d])| == |s|
    ensures forall k :: 0 <= k < |s| ==>
              ReplaceAll(s, [c], [d])[k] == if s[k] == c then d else s[k]
    decreases |s|
  {
    if s != [] {
      ReplaceOneChar(s[1..], c, d);
      var r := ReplaceAll(s, [c], [d]);
      var tail := ReplaceAll(s[1..], [c], [d]);
      assert r == (if s[0] == c then [d] else [s[0]]) + tail;
      forall k | 0 <= k < |s| ensures r[k] == if s[k] == c then d else s[k] {
        if k > 0 { assert r[k] == tail[k - 1]; }
      }
    }
  }

  /** `[line.strip() for line in pieces if line.strip()]`: the stripped pieces that are
      not empty, in order. */
  function NonBlank(pieces: seq<string>): (lines: seq<string>)
    ensures forall k :: 0 <= k < |lines| ==> lines[k] != [] && Trimmed(lines[k])
    decreases |pieces|
  {
    if pieces == [] then []
    else
      var line := Strip(pieces[0]);
      (if line != [] then [line] else []) + NonBlank(pieces[1..])
  }

  /** Filtering a concatenation of piece lists filters each list and keeps their order,
      so every piece contributes its own stripped text, in place, when it is not blank. */
  lemma {:induction false} NonBlankAppend(xs: seq<string>, ys: seq<string>)
    ensures NonBlank(xs + ys) == NonBlank(xs) + NonBlank(ys)
    decreases |xs|
  {
    if xs != [] {
      var line := Strip(xs[0]);
      var h := if line != [] then [line] else [];
      assert (xs + ys)[0] == xs[0] && (xs + ys)[1..] == xs[1..] + ys;
      assert NonBlank(xs + ys) == h + NonBlank(xs[1..] + ys);
      assert NonBlank(xs) == h + NonBlank(xs[1..]);
      NonBlankAppend(xs[1..], ys);
    } else {
      assert xs + ys == ys;
    }
  }

  /** One piece is kept, stripped, exactly when its strip is not empty. */
  lemma NonBlankOne(p: string)
    ensures NonBlank([p]) == if Strip(p) != [] then [Strip(p)] else []
  {
    assert [p][1..] == [];
  }

  /** A line written as a trimmed, non-empty text and a line feed reads back as that text. */
  lemma StripLine(u: string)
    requires u != [] && Trimmed(u)
    ensures Strip(u + "\n") == u
  {
    var s := u + "\n";
    assert s[0] == u[0] && !IsSpace(s[0]);
    assert SkipSpaces(s, 0) == 0;
    assert IsSpace(s[|s| - 1]) && s[|s| - 2] == u[|u| - 1];
    assert BackSpaces(s, 0, |s| - 1) == |u|;
    assert s[..|u|] == u;
  }

  /** A line is kept exactly when it is the non-empty strip of some piece. */
  lemma {:induction false} NonBlankMembers(pieces: seq<string>, x: string)
    ensures x in NonBlank(pieces) <==> x != [] && exists i :: 0 <= i < |pieces| && Strip(pieces[i]) == x
    decreases |pieces|
  {
    if pieces != [] {
      NonBlankMembers(pieces[1..], x);
      if x in NonBlank(pieces[1..]) {
        var i :| 0 <= i < |pieces[1..]| && Strip(pieces[1..][i]) == x;
        assert Strip(pieces[i + 1]) == x;
      }
      if x != [] && Strip(pieces[0]) != x && exists i :: 0 <= i < |pieces| && Strip(pieces[i]) == x {
        var i :| 0 <= i < |pieces| && Strip(pieces[i]) == x;
        assert i > 0 && Strip(pieces[1..][i - 1]) == x;
      }
    }
  }

  lemma AppendAssoc(a: string, b: string, c: string)
    ensures (a + b) + c == a + (b + c)
  {
  }

  /** sep.join(xs). */
  function Join(sep: string, xs: seq<string>): string
    decreases |xs|
  {
    if xs == [] then ""
    else if |xs| == 1 then xs[0]
    else xs[0] + sep + Join(sep, xs[1..])
  }

  /** Joining a list of at least two strings puts the separator after the first. */
  lemma JoinCons(sep: string, x: string, xs: seq<string>)
    requires xs != []
    ensures Join(sep, [x] + xs) == x + sep + Join(sep, xs)
  {
    assert ([x] + xs)[1..] == xs;
  }

  /** The text obtained by appending the strings one after the other. */
  function Concat(xs: seq<string>): string
    decreases |xs|
  {
    if xs == [] then "" else Concat(xs[..|xs| - 1]) + xs[|xs| - 1]
  }

  /** Every character of one of the strings occurs in the concatenation. */
  lemma {:induction false} ConcatKeepsCharacter(xs: seq<string>, i: nat, k: nat)
    requires i < |xs| && k < |xs[i]|
    ensures exists m :: 0 <= m < |Concat(xs)| && Concat(xs)[m] == xs[i][k]
    decreases |xs|
  {
    var init := xs[..|xs| - 1];
    assert Concat(xs) == Concat(init) + xs[|xs| - 1];
    if i == |xs| - 1 {
      assert Concat(xs)[|Concat(init)| + k] == xs[i][k];
    } else {
      assert init[i] == xs[i];
      ConcatKeepsCharacter(init, i, k);
      var m :| 0 <= m < |Concat(init)| && Concat(init)[m] == xs[i][k];
      assert Concat(xs)[m] == xs[i][k];
    }
  }

  function DigitChar(d: nat): (c: char)
    requires d < 10
    ensures IsDigit(c)
  {
    ('0' as int + d) as char
  }

  /** Python's str(n) for a non-negative int. */
  function NatToString(n: nat): (r: string)
    ensures r != [] && AllDigits(r)
    decreases n
  {
    if n < 10 then [DigitChar(n)] else NatToString(n / 10) + [DigitChar(n % 10)]
  }

  /** The number a string of decimal digits denotes. */
  function DecimalValue(s: string): nat
    requires AllDigits(s)
    decreases |s|
  {
    if s == [] then 0 else 10 * DecimalValue(s[..|s| - 1]) + (s[|s| - 1] as int - '0' as int)
  }

  /** str(n) denotes n. */
  lemma {:induction false} NatToStringValue(n: nat)
    ensures DecimalValue(NatToString(n)) == n
    decreases n
  {
    var r := NatToString(n);
    if n >= 10 {
      NatToStringValue(n / 10);
      assert r[..|r| - 1] == NatToString(n / 10);
    } else {
      assert r[..|r| - 1] == [];
    }
  }
}
