/**
  The results page: one block per record, in the order of `all_results`, under a
  heading that gives the number of records.
*/
module Report {
  import opened Text
  import opened Wrappers
  import opened Dict
  import opened Records

  // ---------------------------------------------------------------------------
  // str.title()

  /** str.title() on ASCII: a letter that follows a letter becomes lower case, any
      other letter upper case, and every other character stays as it is. */
  function TitleCase(s: string): (r: string)
    ensures |r| == |s|
    ensures forall i :: 0 <= i < |s| && !IsLetter(s[i]) ==> r[i] == s[i]
    ensures forall i :: 0 <= i < |s| && IsLetter(s[i]) ==>
              if i > 0 && IsLetter(s[i - 1]) then IsLower(r[i]) else IsUpper(r[i])
  {
    seq(|s|, i requires 0 <= i < |s| =>
      if IsLetter(s[i]) && i > 0 && IsLetter(s[i - 1]) then LowerChar(s[i])
      else if IsLetter(s[i]) then UpperChar(s[i])
      else s[i])
  }

  /** Title-casing changes the case of letters only, and letters stay letters. */
  lemma TitleCaseKeepsLetters(s: string)
    ensures Lower(TitleCase(s)) == Lower(s)
    ensures forall i :: 0 <= i < |s| ==> (IsLetter(TitleCase(s)[i]) <==> IsLetter(s[i]))
  {
    var t := TitleCase(s);
    forall i | 0 <= i < |s| ensures LowerChar(t[i]) == LowerChar(s[i]) {
    }
  }

  /** Title-casing twice is title-casing once. */
  lemma TitleCaseIdempotent(s: string)
    ensures TitleCase(TitleCase(s)) == TitleCase(s)
  {
    TitleCaseKeepsLetters(s);
  }

  // ---------------------------------------------------------------------------
  // One entry

  const WorkOpen: string := "<div class=\"work\">\n"
  const DivClose: string := "</div>\n"
  const NotFoundNote: string := "<div class=\"notfound\">Work page not found; showing extracted metadata.</div>\n"
  const StatsOpen: string := "<div class=\"stats\">\n"

  function TitleLine(title: string): string {
    "<div class=\"title\">" + title + DivClose
  }

  function LinkLine(url: string): string {
    "<div class=\"url\"><a href=\"" + url + "\" target=\"_blank\">" + url + "</a>" + DivClose
  }

  function SummaryLine(summary: string): string {
    "<div class=\"summary\">" + summary + DivClose
  }

  function StatLine(item: (string, string)): string {
    "<div><strong>" + TitleCase(item.0) + ":</strong> " + item.1 + DivClose
  }

  /** The lines of the statistics, in the dict's order. */
  function StatLines(d: Dict): string
    decreases |d|
  {
    if d == [] then "" else StatLines(d[..|d| - 1]) + StatLine(d[|d| - 1])
  }

  /** `if work["stats"]`: None and the empty dict are both false. */
  predicate HasStats(stats: Option<Dict>) {
    stats.Some? && stats.value != []
  }

  function StatsBlock(stats: Option<Dict>): string {
    if HasStats(stats) then StatsOpen + StatLines(stats.value) + DivClose else ""
  }

  /** The link of an entry: the document, under the not-found note, when the work page
      was not found, and the work otherwise. */
  function LinkPart(rec: Record): string {
    if rec.notFound then NotFoundNote + LinkLine(rec.pdfUrl) else LinkLine(rec.url)
  }

  /** The block of one record. */
  function EntryText(rec: Record): string {
    WorkOpen + TitleLine(rec.title) + LinkPart(rec) + SummaryLine(rec.summary) + StatsBlock(rec.stats) + DivClose
  }

  /** The statistics block appears exactly when the record has a non-empty dict, and
      then it holds one line per key. */
  lemma StatsBlockShown(stats: Option<Dict>)
    ensures StatsBlock(stats) == [] <==> !HasStats(stats)
    ensures HasStats(stats) ==> StatsBlock(stats) == StatsOpen + StatLines(stats.value) + DivClose
  {
  }

  /** An entry is one work block: it opens with the work div and the title line, links
      the document for a record whose page was not found and the work otherwise, and
      closes the block. */
  lemma EntryShape(rec: Record)
    ensures StartsWith(EntryText(rec), WorkOpen + TitleLine(rec.title))
    ensures var rest := EntryText(rec)[|WorkOpen + TitleLine(rec.title)|..];
      StartsWith(rest, if rec.notFound then NotFoundNote + LinkLine(rec.pdfUrl) else LinkLine(rec.url))
    ensures EntryText(rec)[|EntryText(rec)| - |DivClose|..] == DivClose
  {
    PiecesShape(WorkOpen + TitleLine(rec.title), LinkPart(rec), SummaryLine(rec.summary) + StatsBlock(rec.stats), DivClose);
  }

  /** Where the pieces of a block sit in it. */
  lemma PiecesShape(head: string, link: string, middle: string, close: string)
    ensures var whole := head + link + middle + close;
      && StartsWith(whole, head)
      && StartsWith(whole[|head|..], link)
      && whole[|whole| - |close|..] == close
  {
    var whole := head + link + middle + close;
    assert whole == head + (link + (middle + close));
    assert whole[..|head|] == head;
    assert whole[|head|..] == link + (middle + close);
    assert (link + (middle + close))[..|link|] == link;
    assert whole == (head + link + middle) + close;
  }

  /** The entry loop, building the block by appending. */
  method RenderEntry(rec: Record) returns (entry: string)
    ensures entry == EntryText(rec)
  {
    entry := WorkOpen;
    entry := entry + TitleLine(rec.title);
    ghost var head := entry;
    if rec.notFound {
      entry := entry + NotFoundNote;
      entry := entry + LinkLine(rec.pdfUrl);
      AppendAssoc(head, NotFoundNote, LinkLine(rec.pdfUrl));
    } else {
      entry := entry + LinkLine(rec.url);
    }
    assert entry == head + LinkPart(rec);
    entry := entry + SummaryLine(rec.summary);
    if rec.stats.Some? && |rec.stats.value| > 0 {
      var lines := CollectLines(rec.stats.value);
      entry := entry + (StatsOpen + lines + DivClose);
    }
    entry := entry + DivClose;
  }

  /** The loop over the statistics, one line per pair in the dict's order. */
  method CollectLines(d: Dict) returns (lines: string)
    ensures lines == StatLines(d)
  {
    lines := "";
    var i := 0;
    while i < |d|
      invariant 0 <= i <= |d|
      invariant lines == StatLines(d[..i])
    {
      assert d[..i + 1][..i] == d[..i];
      lines := lines + StatLine(d[i]);
      i := i + 1;
    }
    assert d[..|d|] == d;
  }

  // ---------------------------------------------------------------------------
  // The page

  const Css: string :=
    "body { font-family: Arial, sans-serif; background:#f5f5f5; color:#222; padding:20px; }\n"
    + ".work { border:1px solid #ddd; padding:15px; margin-bottom:15px; background:#fff; border-radius:8px; }\n"
    + ".title { font-weight:bold; font-size:1.2em; margin-bottom:5px; }\n"
    + ".summary { font-style: italic; margin-bottom:10px; }\n"
    + ".url a { color:#0066cc; text-decoration:none; }\n"
    + ".stats div { margin: 2px 0; }\n"
    + ".notfound { color:#a00; font-weight:bold; margin-bottom:10px; }\n"

  const HeadingText: string := "AO3 Works Extraction Results ("

  const TitleStart: string := "\n<html>\n<head>\n<title>AO3 Works Extraction Results ("

  /** The document start up to the end of the page title, which names the number of
      records. */
  function Opening(count: nat): string {
    TitleStart + (NatToString(count) + " works)</title>")
  }

  /** The style sheet, the end of the head, and the heading up to the count. */
  const StyleAndHeading: string := "\n<style>\n" + Css + "</style>\n</head>\n<body>\n<h1>" + HeadingText

  const Footer: string := "\n</body>\n</html>\n"

  /** The blocks of the records, in order. */
  function Entries(results: seq<Record>): (es: seq<string>)
    ensures |es| == |results|
    ensures forall i :: 0 <= i < |results| ==> es[i] == EntryText(results[i])
  {
    seq(|results|, i requires 0 <= i < |results| => EntryText(results[i]))
  }

  /** What follows the page title: the style sheet, the heading with the count, the
      blocks and the end of the document. */
  function AfterTitle(results: seq<Record>): string {
    StyleAndHeading + NatToString(|results|) + " works)</h1>\n" + Concat(Entries(results)) + Footer
  }

  /** The whole page. */
  function PageText(results: seq<Record>): string {
    Opening(|results|) + AfterTitle(results)
  }

  /** The title of the page gives the number of records in decimal. */
  lemma PageShowsCount(results: seq<Record>)
    ensures StartsWith(PageText(results), TitleStart + NatToString(|results|))
    ensures DecimalValue(NatToString(|results|)) == |results|
  {
    NatToStringValue(|results|);
    OpeningPrefix(NatToString(|results|), AfterTitle(results));
  }

  lemma OpeningPrefix(n: string, rest: string)
    ensures StartsWith(TitleStart + (n + " works)</title>") + rest, TitleStart + n)
  {
    var a := TitleStart + n;
    assert TitleStart + (n + " works)</title>") + rest == a + (" works)</title>" + rest);
    assert (a + (" works)</title>" + rest))[..|a|] == a;
  }

  /** The page: the blocks are built one per record and joined in order. */
  method RenderPage(results: seq<Record>) returns (html: string)
    ensures html == PageText(results)
  {
    var entries := RenderEntries(results);
    html := Opening(|results|) + (StyleAndHeading + NatToString(|results|) + " works)</h1>\n" + Concat(entries) + Footer);
  }

  /** The loop over the results, one block per record. */
  method RenderEntries(results: seq<Record>) returns (entries: seq<string>)
    ensures entries == Entries(results)
  {
    entries := [];
    var i := 0;
    while i < |results|
      invariant 0 <= i <= |results|
      invariant entries == Entries(results[..i])
    {
      var entry := RenderEntry(results[i]);
      assert Entries(results[..i + 1]) == Entries(results[..i]) + [entry];
      entries := entries + [entry];
      i := i + 1;
    }
    assert results[..|results|] == results;
  }
}
