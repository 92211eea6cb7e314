/**
  `extract_title_summary_from_pdf`: the line-scan fallback parser. The page texts are
  joined, split into stripped non-blank lines, the first line is the title, and the
  remaining lines run through a small state machine that fills the metadata dict and
  collects summary lines.
*/
module PdfScan {
  import opened Text
  import opened Wrappers
  import opened Dict

  /** The recognised attribute labels, in the order the parser tries them. */
  const Labels: seq<string> :=
    ["Rating:", "Archive Warning:", "Category:", "Fandom:", "Character:", "Additional Tags:", "Stats:"]

  /** The summary reported when no summary line was collected. */
  const NoSummary: string := "No summary found"

  // ---------------------------------------------------------------------------
  // Splitting the text into lines

  /** The pieces of s between line boundaries (str.splitlines(), with "\r\n" read as
      two boundaries; the empty piece between them is dropped with the blank lines). */
  function Segments(s: string): (r: seq<string>)
    ensures |r| >= 1
    decreases |s|
  {
    if s == [] then [""]
    else
      var rest := Segments(s[1..]);
      if IsLineBreak(s[0]) then [""] + rest else [[s[0]] + rest[0]] + rest[1..]
  }

  /** s with every line boundary written as a line feed. */
  function BreaksAsNewlines(s: string): (r: string)
    ensures |r| == |s|
    decreases |s|
  {
    if s == [] then [] else [if IsLineBreak(s[0]) then '\n' else s[0]] + BreaksAsNewlines(s[1..])
  }

  /** The pieces hold no line boundary, and put back together with a line feed between
      each two they give s, every boundary read as a line feed. */
  lemma SegmentsSplit(s: string)
    ensures forall k, j :: 0 <= k < |Segments(s)| && 0 <= j < |Segments(s)[k]| ==> !IsLineBreak(Segments(s)[k][j])
    ensures Join("\n", Segments(s)) == BreaksAsNewlines(s)
  {
    SegmentsHaveNoBreak(s);
    SegmentsJoin(s);
  }

  lemma {:induction false} SegmentsHaveNoBreak(s: string)
    ensures forall k, j :: 0 <= k < |Segments(s)| && 0 <= j < |Segments(s)[k]| ==> !IsLineBreak(Segments(s)[k][j])
    decreases |s|
  {
    if s != [] {
      var rest := Segments(s[1..]);
      SegmentsHaveNoBreak(s[1..]);
      var r := Segments(s);
      if IsLineBreak(s[0]) {
        assert forall k :: 1 <= k < |r| ==> r[k] == rest[k - 1];
      } else {
        assert r[0] == [s[0]] + rest[0];
        assert forall k :: 1 <= k < |r| ==> r[k] == rest[k];
      }
    }
  }

  lemma {:induction false} SegmentsJoin(s: string)
    ensures Join("\n", Segments(s)) == BreaksAsNewlines(s)
    decreases |s|
  {
    if s != [] {
      var rest := Segments(s[1..]);
      SegmentsJoin(s[1..]);
      var c := if IsLineBreak(s[0]) then '\n' else s[0];
      assert BreaksAsNewlines(s) == [c] + BreaksAsNewlines(s[1..]);
      if IsLineBreak(s[0]) {
        JoinCons("\n", "", rest);
      } else {
        JoinPrepend("\n", s[0], rest);
      }
    }
  }

  /** Putting a character in front of the first piece puts it in front of the join. */
  lemma JoinPrepend(sep: string, c: char, xs: seq<string>)
    requires xs != []
    ensures Join(sep, [[c] + xs[0]] + xs[1..]) == [c] + Join(sep, xs)
  {
    var ys := [[c] + xs[0]] + xs[1..];
    if |xs| > 1 {
      assert ys[1..] == xs[1..];
    }
  }

  /** The lines the parser works on. */
  function Lines(text: string): (lines: seq<string>)
  {
    NonBlank(Segments(Strip(text)))
  }

  /** No line the parser reads is empty: blank lines are filtered out beforehand. */
  lemma LinesNotEmpty(text: string)
    ensures forall k :: 0 <= k < |Lines(text)| ==> Lines(text)[k] != ""
  {
  }

  /** The text has lines exactly when it has a character that is not whitespace. */
  lemma LinesEmptyIff(text: string)
    ensures Lines(text) == [] <==> AllSpace(text)
  {
    var t := Strip(text);
    var segs := Segments(t);
    StripEmpty(text);
    if AllSpace(text) {
      assert t == [];
      assert segs == [""];
      StripEmpty("");
      assert NonBlank(segs) == [] + NonBlank([]);
    } else {
      assert t != [] && !IsSpace(t[0]);
      assert segs[0] != [] && segs[0][0] == t[0];
      StripEmpty(segs[0]);
      assert Strip(segs[0]) != [];
      assert NonBlank(segs) == [Strip(segs[0])] + NonBlank(segs[1..]);
    }
  }

  // ---------------------------------------------------------------------------
  // Labels

  /** str.rstrip(c). */
  function TrimTrailing(s: string, c: char): (r: string)
    decreases |s|
  {
    if s != [] && s[|s| - 1] == c then TrimTrailing(s[..|s| - 1], c) else s
  }

  /** The metadata key of the i-th label: the label without its colon. */
  function LabelKey(i: nat): string
    requires i < |Labels|
  {
    TrimTrailing(Labels[i], ':')
  }

  /** The metadata keys the parser can produce. */
  const LabelKeys: seq<string> :=
    ["Rating", "Archive Warning", "Category", "Fandom", "Character", "Additional Tags", "Stats"]

  lemma LabelKeysAreTrimmedLabels()
    ensures forall i :: 0 <= i < |Labels| ==> LabelKey(i) == LabelKeys[i]
  {
    assert LabelKey(0) == "Rating";
    assert LabelKey(1) == "Archive Warning";
    assert LabelKey(2) == "Category";
    assert LabelKey(3) == "Fandom";
    assert LabelKey(4) == "Character";
    assert LabelKey(5) == "Additional Tags";
    assert LabelKey(6) == "Stats";
  }

  /** The first label (from index i on) that the line starts with. */
  function LabelFrom(line: string, i: nat): (r: Option<nat>)
    requires i <= |Labels|
    ensures r.Some? ==> i <= r.value < |Labels| && StartsWith(line, Labels[r.value])
    ensures r.Some? ==> forall j :: i <= j < r.value ==> !StartsWith(line, Labels[j])
    ensures r.None? ==> forall j :: i <= j < |Labels| ==> !StartsWith(line, Labels[j])
    decreases |Labels| - i
  {
    if i == |Labels| then None
    else if StartsWith(line, Labels[i]) then Some(i)
    else LabelFrom(line, i + 1)
  }

  /** Any two labels differ in their first two characters. */
  lemma LabelsDifferEarly()
    ensures forall i :: 0 <= i < |Labels| ==> |Labels[i]| >= 2
    ensures forall i, j :: 0 <= i < j < |Labels| ==> Labels[i][..2] != Labels[j][..2]
  {
    var heads := ["Ra", "Ar", "Ca", "Fa", "Ch", "Ad", "St"];
    forall i | 0 <= i < |Labels| ensures |Labels[i]| >= 2 && Labels[i][..2] == heads[i] {
    }
  }

  /** A line starts with at most one label, so the order in which the labels are tried
      does not matter. */
  lemma LabelIsUnique(line: string, i: nat, j: nat)
    requires i < |Labels| && j < |Labels|
    requires StartsWith(line, Labels[i]) && StartsWith(line, Labels[j])
    ensures i == j
  {
    LabelsDifferEarly();
    assert Labels[i][..2] == line[..2] == Labels[j][..2];
  }

  /** `any(line.startswith(k) for k in keys)`. */
  predicate StartsWithAny(line: string, keys: seq<string>) {
    exists k :: 0 <= k < |keys| && StartsWith(line, keys[k])
  }

  /** The words that end summary collection. */
  const SummaryEnders: seq<string> := Labels + ["Summary", "Notes"]

  // ---------------------------------------------------------------------------
  // The state machine

  /** current_key, in_summary, metadata, summary_lines, and whether the loop broke out. */
  datatype ScanState = ScanState(
    currentKey: Option<string>,
    inSummary: bool,
    metadata: Dict,
    summaryLines: seq<string>,
    stopped: bool)

  const Start: ScanState := ScanState(None, false, [], [], false)

  /** One iteration of the loop over lines[1:]. */
  function Step(st: ScanState, line: string): (r: ScanState)
    requires !st.stopped
  {
    if Lower(line) == "summary" then st.(inSummary := true)
    else if Lower(line) == "notes" then st.(inSummary := false, stopped := true)
    else if st.inSummary then
      if line == "" || StartsWithAny(line, SummaryEnders) then st.(stopped := true)
      else st.(summaryLines := st.summaryLines + [line])
    else
      match LabelFrom(line, 0)
      case Some(i) =>
        var key := LabelKey(i);
        st.(currentKey := Some(key), metadata := Put(st.metadata, key, Strip(line[|Labels[i]|..])))
      case None =>
        if st.currentKey.Some? then
          var key := st.currentKey.value;
          st.(metadata := Put(st.metadata, key, Get(st.metadata, key).GetOr("") + " " + line))
        else st
  }

  /** The loop over the given lines, ending early when it breaks out. */
  function Scan(st: ScanState, lines: seq<string>): (r: ScanState)
    decreases |lines|
  {
    if lines == [] || st.stopped then st else Scan(Step(st, lines[0]), lines[1..])
  }

  /** What the parser returns: the title, the summary text and the metadata dict. */
  datatype Extracted = Extracted(title: string, summary: string, metadata: Dict)

  /** `lines[0]` raising IndexError on a text without lines. */
  datatype ScanError = NoLines

  /** The parser over the lines of the text. */
  function ScanLines(lines: seq<string>): Result<Extracted, ScanError>
  {
    if lines == [] then Failure(NoLines)
    else
      var st := Scan(Start, lines[1..]);
      var summary := if st.summaryLines == [] then NoSummary else Strip(Join(" ", st.summaryLines));
      Success(Extracted(Strip(lines[0]), summary, st.metadata))
  }

  /** The parser over the page texts. */
  function TitleSummary(pages: seq<string>): Result<Extracted, ScanError>
  {
    ScanLines(Lines(Concat(pages)))
  }

  // ---------------------------------------------------------------------------
  // What the scan guarantees

  /** A line that starts with a label, read outside the summary, sets that label's key to
      the stripped rest of the line (replacing an earlier value), opens that key, and
      leaves every other key alone. */
  lemma LabelLineSetsValue(st: ScanState, line: string, i: nat)
    requires !st.stopped && !st.inSummary
    requires i < |Labels| && StartsWith(line, Labels[i])
    ensures Step(st, line).currentKey == Some(LabelKey(i))
    ensures Get(Step(st, line).metadata, LabelKey(i)) == Some(Strip(line[|Labels[i]|..]))
    ensures forall k :: k != LabelKey(i) ==> Get(Step(st, line).metadata, k) == Get(st.metadata, k)
    ensures !Step(st, line).stopped && !Step(st, line).inSummary
  {
    var n := |Labels[i]|;
    assert line[n - 1] == Labels[i][n - 1] == ':';
    assert Lower(line)[n - 1] == ':';
    assert Lower(line) != "summary" && Lower(line) != "notes";
    var found := LabelFrom(line, 0);
    assert found.Some?;
    LabelIsUnique(line, i, found.value);
    forall k | k != LabelKey(i)
      ensures Get(Step(st, line).metadata, k) == Get(st.metadata, k)
    {
      PutOther(st.metadata, LabelKey(i), Strip(line[n..]), k);
    }
  }

  /** A line with no label, read outside the summary before any label, changes nothing. */
  lemma StrayLineIgnored(st: ScanState, line: string)
    requires !st.stopped && !st.inSummary && st.currentKey.None?
    requires Lower(line) != "summary" && Lower(line) != "notes"
    requires forall i :: 0 <= i < |Labels| ==> !StartsWith(line, Labels[i])
    ensures Step(st, line) == st
  {
  }

  /** A line reading "summary" (in any case) enters the summary and changes nothing else,
      wherever it occurs. */
  lemma EntersSummary(st: ScanState, line: string)
    requires !st.stopped && Lower(line) == "summary"
    ensures Step(st, line) == st.(inSummary := true)
  {
  }

  /** Inside the summary, an empty line or one starting with a label, "Summary" or
      "Notes" ends the scan; the collected lines and the metadata stay as they are. The
      lines the parser reads are never empty (LinesNotEmpty), so on them only a line
      starting with one of those words ends the summary; a blank line in the text has
      already been dropped. */
  lemma EnderStopsSummary(st: ScanState, line: string)
    requires !st.stopped && st.inSummary && Lower(line) != "summary"
    requires line == "" || StartsWithAny(line, SummaryEnders)
    ensures Step(st, line).stopped
    ensures Step(st, line).summaryLines == st.summaryLines && Step(st, line).metadata == st.metadata
    ensures Lower(line) != "notes" ==> Step(st, line) == st.(stopped := true)
  {
  }

  /** Inside the summary, any other line is appended to the collected lines. */
  lemma PlainLineCollected(st: ScanState, line: string)
    requires !st.stopped && st.inSummary
    requires Lower(line) != "summary" && Lower(line) != "notes"
    requires line != "" && !StartsWithAny(line, SummaryEnders)
    ensures Step(st, line) == st.(summaryLines := st.summaryLines + [line])
  {
  }

  /** Outside the summary, a line with no label continues the open key: its value becomes
      the old value (or the empty text), a space and the line; every other key, the open
      key itself and the mode stay as they are. */
  lemma ContinuationAppends(st: ScanState, line: string)
    requires !st.stopped && !st.inSummary && st.currentKey.Some?
    requires Lower(line) != "summary" && Lower(line) != "notes"
    requires forall i :: 0 <= i < |Labels| ==> !StartsWith(line, Labels[i])
    ensures var key := st.currentKey.value;
      && Get(Step(st, line).metadata, key) == Some(Get(st.metadata, key).GetOr("") + " " + line)
      && (forall k :: k != key ==> Get(Step(st, line).metadata, k) == Get(st.metadata, k))
      && Step(st, line).currentKey == st.currentKey
      && !Step(st, line).stopped && !Step(st, line).inSummary
      && Step(st, line).summaryLines == st.summaryLines
  {
    var key := st.currentKey.value;
    var v := Get(st.metadata, key).GetOr("") + " " + line;
    assert LabelFrom(line, 0).None?;
    forall k | k != key
      ensures Get(Step(st, line).metadata, k) == Get(st.metadata, k)
    {
      PutOther(st.metadata, key, v, k);
    }
  }

  /** Once the summary has been entered, no later line changes the metadata. */
  lemma {:induction false} SummaryFreezesMetadata(st: ScanState, lines: seq<string>)
    requires st.inSummary
    ensures Scan(st, lines).metadata == st.metadata
    decreases |lines|
  {
    if lines != [] && !st.stopped {
      var next := Step(st, lines[0]);
      assert next.metadata == st.metadata;
      assert next.inSummary || next.stopped;
      if next.stopped {
        assert Scan(next, lines[1..]) == next;
      } else {
        SummaryFreezesMetadata(next, lines[1..]);
      }
    }
  }

  /** Scanning two lists of lines is scanning the second from where the first ended. */
  lemma {:induction false} ScanAppend(st: ScanState, xs: seq<string>, ys: seq<string>)
    ensures Scan(st, xs + ys) == Scan(Scan(st, xs), ys)
    decreases |xs|
  {
    if xs == [] {
      assert xs + ys == ys;
    } else if st.stopped {
      assert Scan(st, xs + ys) == st;
      assert Scan(st, ys) == st;
    } else {
      assert (xs + ys)[0] == xs[0] && (xs + ys)[1..] == xs[1..] + ys;
      ScanAppend(Step(st, xs[0]), xs[1..], ys);
    }
  }

  /** A line reading "notes" (in any case) ends the scan: nothing after it is read. */
  lemma NotesEndsScan(st: ScanState, xs: seq<string>, notes: string, ys: seq<string>)
    requires Lower(notes) == "notes"
    ensures Scan(st, xs + [notes] + ys) == Scan(st, xs + [notes])
    ensures Scan(st, xs + [notes]).stopped
  {
    ScanAppend(st, xs + [notes], ys);
    ScanAppend(st, xs, [notes]);
    var mid := Scan(st, xs);
    if !mid.stopped {
      assert "notes" != "summary";
      assert Scan(mid, [notes]) == Scan(Step(mid, notes), []);
    }
  }

  /** The metadata keys are label names without the colon, each present once, and the
      open key is always one of them. */
  ghost predicate WellFormed(st: ScanState) {
    && NoDupKeys(st.metadata)
    && (forall k :: k in Keys(st.metadata) ==> k in LabelKeys)
    && (st.currentKey.Some? ==> st.currentKey.value in Keys(st.metadata))
  }

  lemma StepWellFormed(st: ScanState, line: string)
    requires !st.stopped && WellFormed(st)
    ensures WellFormed(Step(st, line))
  {
    if Lower(line) != "summary" && Lower(line) != "notes" && !st.inSummary {
      match LabelFrom(line, 0)
      case Some(i) =>
        LabelKeysAreTrimmedLabels();
        PutKeys(st.metadata, LabelKey(i), Strip(line[|Labels[i]|..]));
        PutNoDup(st.metadata, LabelKey(i), Strip(line[|Labels[i]|..]));
      case None =>
        if st.currentKey.Some? {
          var key := st.currentKey.value;
          var v := Get(st.metadata, key).GetOr("") + " " + line;
          PutKeys(st.metadata, key, v);
          PutNoDup(st.metadata, key, v);
        }
    }
  }

  /** Every scan keeps the state well formed; in particular the metadata only ever has
      the seven label names as keys. */
  lemma {:induction false} ScanWellFormed(st: ScanState, lines: seq<string>)
    requires WellFormed(st)
    ensures WellFormed(Scan(st, lines))
    decreases |lines|
  {
    if lines != [] && !st.stopped {
      StepWellFormed(st, lines[0]);
      ScanWellFormed(Step(st, lines[0]), lines[1..]);
    }
  }

  /** Summary lines come from the input lines, unchanged. */
  lemma {:induction false} SummaryLinesFromInput(st: ScanState, lines: seq<string>)
    requires forall k :: 0 <= k < |st.summaryLines| ==> st.summaryLines[k] != [] && Trimmed(st.summaryLines[k])
    requires forall k :: 0 <= k < |lines| ==> lines[k] != [] && Trimmed(lines[k])
    ensures forall k :: 0 <= k < |Scan(st, lines).summaryLines| ==>
              Scan(st, lines).summaryLines[k] != [] && Trimmed(Scan(st, lines).summaryLines[k])
    decreases |lines|
  {
    if lines != [] && !st.stopped {
      SummaryLinesFromInput(Step(st, lines[0]), lines[1..]);
    }
  }

  /** The scan only appends to the collected lines, and what it appends are lines of
      its input. */
  lemma {:induction false} ScanCollectsInputLines(st: ScanState, lines: seq<string>)
    ensures var r := Scan(st, lines).summaryLines;
      && |st.summaryLines| <= |r| && r[..|st.summaryLines|] == st.summaryLines
      && (forall k :: |st.summaryLines| <= k < |r| ==> r[k] in lines)
    decreases |lines|
  {
    if lines != [] && !st.stopped {
      var next := Step(st, lines[0]);
      ScanCollectsInputLines(next, lines[1..]);
      var r := Scan(st, lines).summaryLines;
      assert r == Scan(next, lines[1..]).summaryLines;
      assert next.summaryLines == st.summaryLines || next.summaryLines == st.summaryLines + [lines[0]];
      assert r[..|next.summaryLines|] == next.summaryLines;
      assert next.summaryLines[..|st.summaryLines|] == st.summaryLines;
      assert r[..|st.summaryLines|] == r[..|next.summaryLines|][..|st.summaryLines|];
      forall k | |st.summaryLines| <= k < |r|
        ensures r[k] in lines
      {
        if k < |next.summaryLines| {
          assert r[k] == next.summaryLines[k] == lines[0];
        } else {
          assert r[k] in lines[1..];
        }
      }
    }
  }

  /** Joining non-empty trimmed lines with spaces gives a trimmed text. */
  lemma {:induction false} JoinTrimmed(xs: seq<string>)
    requires xs != []
    requires forall k :: 0 <= k < |xs| ==> xs[k] != [] && Trimmed(xs[k])
    ensures Join(" ", xs) != [] && Trimmed(Join(" ", xs))
    decreases |xs|
  {
    if |xs| > 1 {
      JoinTrimmed(xs[1..]);
      var j := xs[0] + " " + Join(" ", xs[1..]);
      assert j[0] == xs[0][0];
      assert j[|j| - 1] == Join(" ", xs[1..])[|Join(" ", xs[1..])| - 1];
    }
  }

  /** On lines that are non-empty and trimmed, as Lines produces them, the parser fails
      exactly when there is no line; otherwise the title is the first line, and the
      summary is the collected lines joined by spaces, or "No summary found" when there
      are none. The metadata keys are label names. */
  lemma ScanLinesResult(lines: seq<string>)
    requires forall k :: 0 <= k < |lines| ==> lines[k] != [] && Trimmed(lines[k])
    ensures ScanLines(lines).Failure? <==> lines == []
    ensures ScanLines(lines).Success? ==>
              var st := Scan(Start, lines[1..]);
              && ScanLines(lines).value.title == lines[0]
              && ScanLines(lines).value.summary
                 == (if st.summaryLines == [] then NoSummary else Join(" ", st.summaryLines))
              && (forall k :: k in Keys(ScanLines(lines).value.metadata) ==> k in LabelKeys)
  {
    if lines != [] {
      var st := Scan(Start, lines[1..]);
      ScanWellFormed(Start, lines[1..]);
      SummaryLinesFromInput(Start, lines[1..]);
      if st.summaryLines != [] {
        JoinTrimmed(st.summaryLines);
      }
    }
  }

  /** The parser fails exactly when the page texts have no character other than
      whitespace; otherwise the title is the first line of the text and never empty. */
  lemma TitleSummaryResult(pages: seq<string>)
    ensures TitleSummary(pages).Failure? <==> AllSpace(Concat(pages))
    ensures TitleSummary(pages).Success? ==>
              TitleSummary(pages).value.title == Lines(Concat(pages))[0] != ""
  {
    LinesEmptyIff(Concat(pages));
    ScanLinesResult(Lines(Concat(pages)));
  }

  /** The example of a summary block: after "Summary", the lines up to the next label
      line are the summary, and the label line ends the scan before it is parsed. */
  lemma SummaryExample()
    ensures ScanLines(["My Work", "Summary", "A brave fox", "Rating: Explicit"])
         == Success(Extracted("My Work", "A brave fox", []))
  {
    var lines := ["My Work", "Summary", "A brave fox", "Rating: Explicit"];
    assert lines[1..] == ["Summary", "A brave fox", "Rating: Explicit"];
    ExampleScan();
    var st := Scan(Start, lines[1..]);
    assert st.summaryLines == ["A brave fox"] && st.metadata == [];
    assert Join(" ", ["A brave fox"]) == "A brave fox";
    ExampleTrimmed();
  }

  lemma ExampleTrimmed()
    ensures Strip("A brave fox") == "A brave fox" && Strip("My Work") == "My Work"
  {
    var fox := "A brave fox";
    var work := "My Work";
    assert fox[0] == 'A' && fox[|fox| - 1] == 'x';
    assert work[0] == 'M' && work[|work| - 1] == 'k';
    assert !IsSpace('A') && !IsSpace('x') && !IsSpace('M') && !IsSpace('k');
    assert Trimmed(fox) && Trimmed(work);
  }

  lemma ExampleScan()
    ensures Scan(Start, ["Summary", "A brave fox", "Rating: Explicit"])
         == ScanState(None, true, [], ["A brave fox"], true)
  {
    var s1 := Start.(inSummary := true);
    var s2 := s1.(summaryLines := ["A brave fox"]);
    var fox := "A brave fox";
    var rating := "Rating: Explicit";
    assert Lower("Summary") == "summary";
    EntersSummary(Start, "Summary");
    assert Lower(fox)[0] == 'a' && Lower(fox) != "summary" && Lower(fox) != "notes";
    FoxIsNoEnder();
    PlainLineCollected(s1, fox);
    assert s1.summaryLines + [fox] == [fox];
    assert Step(s1, fox) == s2;
    assert Lower(rating)[0] == 'r' && Lower(rating) != "summary" && Lower(rating) != "notes";
    assert StartsWith(rating, SummaryEnders[0]);
    EnderStopsSummary(s2, rating);
    var xs := ["Summary", fox, rating];
    assert xs[1..] == [fox, rating];
    assert xs[1..][1..] == [rating];
    assert Scan(Start, xs) == Scan(s1, xs[1..]);
    assert Scan(s1, xs[1..]) == Scan(s2, xs[1..][1..]);
    assert Scan(s2, [rating]) == Scan(s2.(stopped := true), []);
  }

  lemma FoxIsNoEnder()
    ensures !StartsWithAny("A brave fox", SummaryEnders)
  {
    var line := "A brave fox";
    forall k | 0 <= k < |SummaryEnders| ensures !StartsWith(line, SummaryEnders[k]) {
      assert line[0] == 'A';
      assert |SummaryEnders[k]| >= 2;
      if SummaryEnders[k][0] == 'A' {
        assert line[1] == ' ' != SummaryEnders[k][1];
      }
    }
  }

  // ---------------------------------------------------------------------------
  // The parser as the script runs it

  /** The `for key in metadata_keys` search with its `break`: the index of the first
      label the line starts with. */
  method FindLabel(line: string) returns (found: Option<nat>)
    ensures found == LabelFrom(line, 0)
  {
    var i := 0;
    while i < |Labels|
      invariant 0 <= i <= |Labels|
      invariant LabelFrom(line, i) == LabelFrom(line, 0)
    {
      if StartsWith(line, Labels[i]) {
        return Some(i);
      }
      i := i + 1;
    }
    return None;
  }

  /** `text += page.extract_text()` over the pages. */
  method JoinPages(pages: seq<string>) returns (text: string)
    ensures text == Concat(pages)
  {
    text := "";
    var p := 0;
    while p < |pages|
      invariant 0 <= p <= |pages|
      invariant text == Concat(pages[..p])
    {
      assert pages[..p + 1][..p] == pages[..p];
      text := text + pages[p];
      p := p + 1;
    }
    assert pages[..|pages|] == pages;
  }

  /** The loop over the lines after the title, with its four state variables and its
      two ways of breaking out. */
  method ScanBody(rest: seq<string>) returns (metadata: Dict, summaryLines: seq<string>)
    ensures metadata == Scan(Start, rest).metadata
    ensures summaryLines == Scan(Start, rest).summaryLines
  {
    var currentKey: Option<string> := None;
    var inSummary := false;
    metadata := [];
    summaryLines := [];
    var i := 0;
    while i < |rest|
      invariant 0 <= i <= |rest|
      invariant Scan(ScanState(currentKey, inSummary, metadata, summaryLines, false), rest[i..])
             == Scan(Start, rest)
    {
      ghost var cur := ScanState(currentKey, inSummary, metadata, summaryLines, false);
      var line := rest[i];
      assert Scan(cur, rest[i..]) == Scan(Step(cur, line), rest[i + 1..]);
      if Lower(line) == "summary" {
        inSummary := true;
        i := i + 1;
        continue;
      }
      if Lower(line) == "notes" {
        inSummary := false;
        assert Scan(Start, rest) == cur.(inSummary := false, stopped := true);
        break;
      }
      if inSummary {
        if line == "" || StartsWithAny(line, SummaryEnders) {
          assert Scan(Start, rest) == cur.(stopped := true);
          break;
        }
        summaryLines := summaryLines + [line];
      } else {
        var found := FindLabel(line);
        match found {
          case Some(k) =>
            var key := TrimTrailing(Labels[k], ':');
            currentKey := Some(key);
            metadata := Put(metadata, key, Strip(line[|Labels[k]|..]));
          case None =>
            if currentKey.Some? {
              var key := currentKey.value;
              metadata := Put(metadata, key, Get(metadata, key).GetOr("") + " " + line);
            }
        }
      }
      i := i + 1;
    }
  }

  /** extract_title_summary_from_pdf on the page texts; the result is that of the model. */
  method ExtractTitleSummary(pages: seq<string>) returns (r: Result<Extracted, ScanError>)
    ensures r == TitleSummary(pages)
  {
    var text := JoinPages(pages);
    var lines := Lines(text);
    if |lines| == 0 {
      return Failure(NoLines);
    }
    var title := Strip(lines[0]);
    var metadata, summaryLines := ScanBody(lines[1..]);
    var summary := if |summaryLines| == 0 then NoSummary else Strip(Join(" ", summaryLines));
    return Success(Extracted(title, summary, metadata));
  }
}
