/**
  The script's bookkeeping: the start-up state read from the files of an earlier run,
  `process_pdf` for one document (skip, download, extract the references, claim each
  new work URL, fetch it, build its record, mark the document done), the run over the
  input list, and the files written at the end.

  The shared state `all_results`, `existing_work_urls` and `processed_pdfs` is modelled
  one document at a time; every `with lock:` block is one step.
*/
module Pipeline {
  import opened Text
  import opened Wrappers
  import opened Dict
  import opened Records
  import WorkLinks
  import FilenameTitle
  import SummaryRegex
  import PdfScan
  import Scrape
  import Report

  /** The files kept between runs: results.json, the processed-documents log (its lines
      as written) and results.html; None for a file that does not exist. */
  datatype Files = Files(results: Option<seq<Record>>, log: Option<seq<string>>, report: Option<string>)

  /** The outside world: the page texts of a downloaded document (None when the download
      or the PDF reading fails), and the answer to each request for a work page. */
  datatype Env = Env(download: string -> Option<seq<string>>, net: (string, nat) -> Scrape.Attempt)

  /** `all_results`, `existing_work_urls`, `processed_pdfs`, the files, and the sleeps so
      far in milliseconds. */
  datatype LedgerState = LedgerState(
    results: seq<Record>,
    seen: set<string>,
    processed: set<string>,
    files: Files,
    delays: seq<nat>)

  /** The pause after each record, in milliseconds. */
  const PauseMs: nat := 1500

  // ---------------------------------------------------------------------------
  // Start-up

  /** The answer "y" (after strip and lower) asks to reprocess everything. */
  predicate ResetRequested(answer: string) {
    Lower(Strip(answer)) == "y"
  }

  /** The documents a log names: its stripped non-blank lines. */
  function LogSet(log: Option<seq<string>>): set<string> {
    if log.None? then {} else set line | line in log.value && Strip(line) != [] :: Strip(line)
  }

  lemma LogSetMembers(log: seq<string>, x: string)
    ensures x in LogSet(Some(log)) <==> x != [] && exists i :: 0 <= i < |log| && Strip(log[i]) == x
  {
    if x in LogSet(Some(log)) {
      var line :| line in log && Strip(line) != [] && Strip(line) == x;
      var i :| 0 <= i < |log| && log[i] == line;
    }
  }

  /** The state after the start-up block. Without a reset and with a log, the earlier
      results are kept, their URLs are seen and the log's documents are processed;
      otherwise, even when only the log is missing, everything starts empty and the
      three files are deleted. */
  function StartUp(files: Files, answer: string): LedgerState {
    var loaded := files.results.GetOr([]);
    if !ResetRequested(answer) && files.log.Some? then
      LedgerState(loaded, UrlsOf(loaded), LogSet(files.log), files, [])
    else
      LedgerState([], {}, {}, Files(None, None, None), [])
  }

  lemma StartUpState(files: Files, answer: string)
    ensures var st := StartUp(files, answer);
      && (!ResetRequested(answer) && files.log.Some? ==>
            && st.results == files.results.GetOr([])
            && (forall u :: u in st.seen <==> exists i :: 0 <= i < |st.results| && st.results[i].url == u)
            && (forall x :: x in st.processed <==>
                  x != [] && exists i :: 0 <= i < |files.log.value| && Strip(files.log.value[i]) == x)
            && st.files == files)
      && (ResetRequested(answer) || files.log.None? ==>
            st.results == [] && st.seen == {} && st.processed == {} && st.files == Files(None, None, None))
      && st.delays == []
  {
    if !ResetRequested(answer) && files.log.Some? {
      forall x ensures x in StartUp(files, answer).processed <==>
          x != [] && exists i :: 0 <= i < |files.log.value| && Strip(files.log.value[i]) == x {
        LogSetMembers(files.log.value, x);
      }
    }
  }

  // ---------------------------------------------------------------------------
  // One document

  /** The record for a claimed work URL, by the outcome of its scrape; None when an
      exception escapes (the AttributeError of the page reading, or the IndexError of
      the line scan on a text without lines). */
  function RecordFor(url: string, pdfUrl: string, pages: seq<string>, outcome: Scrape.Scraped): (r: Option<Record>)
    ensures r.Some? ==> r.value.url == url && r.value.pdfUrl == pdfUrl
  {
    match outcome
    case Raised => None
    case Found(info) => Some(Record(url, pdfUrl, info.title, info.summary, Some(info.stats), false))
    case NotFound => NotFoundRecord(url, pdfUrl, pages)
    case Failed => FailedRecord(url, pdfUrl, pages)
  }

  /** The record for a work page that answered 404: the line-scan title (or the title
      made from the document's file name when that is empty), the regex summary or "",
      and the line-scan metadata. */
  function NotFoundRecord(url: string, pdfUrl: string, pages: seq<string>): (r: Option<Record>)
    ensures r.Some? ==> r.value.url == url && r.value.pdfUrl == pdfUrl && r.value.notFound
  {
    match PdfScan.TitleSummary(pages)
    case Failure(_) => None
    case Success(x) =>
      var title := if x.title != [] then x.title else FilenameTitle.FallbackTitle(FilenameTitle.UrlPath(pdfUrl));
      var summary := SummaryRegex.ExtractSummary(Concat(pages)).GetOr("");
      Some(Record(url, pdfUrl, title, summary, Some(x.metadata), true))
  }

  /** The record after three failed attempts: the line-scan title and summary, no stats. */
  function FailedRecord(url: string, pdfUrl: string, pages: seq<string>): (r: Option<Record>)
    ensures r.Some? ==> r.value.url == url && r.value.pdfUrl == pdfUrl && r.value.stats.None?
  {
    match PdfScan.TitleSummary(pages)
    case Failure(_) => None
    case Success(x) => Some(Record(url, pdfUrl, x.title, x.summary, None, false))
  }

  /** The state after the references handled so far, and whether an exception escaped. */
  datatype Progress = Progress(st: LedgerState, aborted: bool)

  /** The loop over the document's references: a seen URL is skipped; a new one is
      claimed, then fetched; its record is appended and followed by the pause, or the
      loop ends when an exception escapes. */
  function ProcessRefs(st: LedgerState, pdfUrl: string, pages: seq<string>, ids: seq<string>,
                       net: (string, nat) -> Scrape.Attempt): Progress
    decreases |ids|
  {
    if ids == [] then Progress(st, false)
    else
      var url := WorkLinks.CanonicalUrl(ids[0]);
      if url in st.seen then ProcessRefs(st, pdfUrl, pages, ids[1..], net)
      else
        var fetched := Scrape.ScrapeWork(url, net);
        var claimed := st.(seen := st.seen + {url}, delays := st.delays + fetched.1);
        match RecordFor(url, pdfUrl, pages, fetched.0)
        case None => Progress(claimed, true)
        case Some(rec) => ProcessRefs(Appended(claimed, rec), pdfUrl, pages, ids[1..], net)
  }

  /** One step of the reference loop, at position i of the references. */
  lemma ProcessRefsAt(st: LedgerState, pdfUrl: string, pages: seq<string>, ids: seq<string>, i: nat,
                      net: (string, nat) -> Scrape.Attempt)
    requires i < |ids|
    ensures var url := WorkLinks.CanonicalUrl(ids[i]);
      var fetched := Scrape.ScrapeWork(url, net);
      var claimed := st.(seen := st.seen + {url}, delays := st.delays + fetched.1);
      var rec := RecordFor(url, pdfUrl, pages, fetched.0);
      && (url in st.seen ==> ProcessRefs(st, pdfUrl, pages, ids[i..], net) == ProcessRefs(st, pdfUrl, pages, ids[i + 1..], net))
      && (url !in st.seen && rec.None? ==> ProcessRefs(st, pdfUrl, pages, ids[i..], net) == Progress(claimed, true))
      && (url !in st.seen && rec.Some? ==>
            ProcessRefs(st, pdfUrl, pages, ids[i..], net)
            == ProcessRefs(Appended(claimed, rec.value), pdfUrl, pages, ids[i + 1..], net))
  {
    assert ids[i..][0] == ids[i] && ids[i..][1..] == ids[i + 1..];
  }

  /** The document is added to the processed set and its URL appended to the log. */
  function MarkProcessed(st: LedgerState, pdfUrl: string): LedgerState {
    st.(processed := st.processed + {pdfUrl},
        files := st.files.(log := Some(st.files.log.GetOr([]) + [pdfUrl + "\n"])))
  }

  predicate Skipped(st: LedgerState, reprocessAll: bool, pdfUrl: string) {
    !reprocessAll && pdfUrl in st.processed
  }

  /** process_pdf. */
  function ProcessDoc(st: LedgerState, reprocessAll: bool, pdfUrl: string, env: Env): LedgerState {
    if Skipped(st, reprocessAll, pdfUrl) then st
    else match env.download(pdfUrl)
      case None => st
      case Some(pages) =>
        var p := ProcessRefs(st, pdfUrl, pages, WorkLinks.FindWorkIds(Concat(pages)), env.net);
        if p.aborted then p.st else MarkProcessed(p.st, pdfUrl)
  }

  /** The documents of the input list, one after the other. */
  function RunDocs(st: LedgerState, reprocessAll: bool, urls: seq<string>, env: Env): LedgerState
    decreases |urls|
  {
    if urls == [] then st else RunDocs(ProcessDoc(st, reprocessAll, urls[0], env), reprocessAll, urls[1..], env)
  }

  /** results.json and results.html are written from the final results. */
  function Finalize(st: LedgerState): LedgerState {
    st.(files := st.files.(results := Some(st.results), report := Some(Report.PageText(st.results))))
  }

  lemma FinalizeWrites(st: LedgerState, html: string)
    requires html == Report.PageText(st.results)
    ensures Finalize(st) == st.(files := st.files.(results := Some(st.results), report := Some(html)))
  {
  }

  /** The whole script: the start-up block, then the login, whose outcome is given;
      after a failed login the script exits with the state the start-up block left, and
      otherwise it reads the input list, processes every document and writes the files
      at the end. */
  function RunScript(files: Files, answer: string, loggedIn: bool, input: seq<string>, env: Env): LedgerState {
    var st := StartUp(files, answer);
    if !loggedIn then st
    else Finalize(RunDocs(st, ResetRequested(answer), NonBlank(input), env))
  }

  /** A failed login exits without writing anything, but only after the start-up block:
      on a reset, or when the log is missing, the three files are already gone; otherwise
      the files are as they were. */
  lemma FailedLoginAfterStartUp(files: Files, answer: string, input: seq<string>, env: Env)
    ensures var out := RunScript(files, answer, false, input, env).files;
      && (ResetRequested(answer) || files.log.None? ==> out == Files(None, None, None))
      && (!ResetRequested(answer) && files.log.Some? ==> out == files)
  {
  }

  // ---------------------------------------------------------------------------
  // What a record holds

  /** For a document whose text has a reference, every outcome except the escaping
      AttributeError gives a record: the line scan cannot fail on it. */
  lemma RecordByOutcome(url: string, pdfUrl: string, pages: seq<string>, outcome: Scrape.Scraped)
    requires WorkLinks.FindWorkIds(Concat(pages)) != []
    ensures RecordFor(url, pdfUrl, pages, outcome).None? <==> outcome.Raised?
    ensures outcome.Found? ==>
      RecordFor(url, pdfUrl, pages, outcome)
      == Some(Record(url, pdfUrl, outcome.info.title, outcome.info.summary, Some(outcome.info.stats), false))
  {
    WorkLinks.FoundIdsNotBlank(Concat(pages));
    PdfScan.TitleSummaryResult(pages);
  }

  /** A 404 gives the not-found record with the line-scan metadata and the regex summary
      (or ""), titled with the first line of the text, which is never empty, so the
      file-name fallback is never used for a document that has a reference. */
  lemma NotFoundRecordTitle(url: string, pdfUrl: string, pages: seq<string>)
    requires WorkLinks.FindWorkIds(Concat(pages)) != []
    ensures var lines := PdfScan.Lines(Concat(pages));
      && lines != [] && lines[0] != []
      && PdfScan.TitleSummary(pages).Success?
      && NotFoundRecord(url, pdfUrl, pages)
         == Some(Record(url, pdfUrl, lines[0], SummaryRegex.ExtractSummary(Concat(pages)).GetOr(""),
                        Some(PdfScan.TitleSummary(pages).value.metadata), true))
  {
    WorkLinks.FoundIdsNotBlank(Concat(pages));
    PdfScan.TitleSummaryResult(pages);
    PdfScan.LinesEmptyIff(Concat(pages));
  }

  /** Three failed attempts give the line-scan title and summary without stats. */
  lemma FailedRecordFields(url: string, pdfUrl: string, pages: seq<string>)
    requires WorkLinks.FindWorkIds(Concat(pages)) != []
    ensures var x := PdfScan.TitleSummary(pages);
      && x.Success?
      && FailedRecord(url, pdfUrl, pages) == Some(Record(url, pdfUrl, x.value.title, x.value.summary, None, false))
  {
    WorkLinks.FoundIdsNotBlank(Concat(pages));
    PdfScan.TitleSummaryResult(pages);
  }

  // ---------------------------------------------------------------------------
  // The ledger invariants

  /** No two records share a work URL, and every record's URL has been seen. */
  ghost predicate Valid(st: LedgerState) {
    && NoDupUrls(st.results)
    && (forall i :: 0 <= i < |st.results| ==> st.results[i].url in st.seen)
  }

  /** The record appended for a claimed URL and the pause after it. */
  function Appended(claimed: LedgerState, rec: Record): LedgerState {
    claimed.(results := claimed.results + [rec], delays := claimed.delays + [PauseMs])
  }

  /** What the reference loop leaves alone: the seen set only grows, records are only
      appended, and the processed set and the files stay as they are. */
  lemma {:induction false} ProcessRefsFrame(st: LedgerState, pdfUrl: string, pages: seq<string>,
                                            ids: seq<string>, net: (string, nat) -> Scrape.Attempt)
    ensures var p := ProcessRefs(st, pdfUrl, pages, ids, net).st;
      && st.seen <= p.seen
      && |st.results| <= |p.results| && p.results[..|st.results|] == st.results
      && p.processed == st.processed && p.files == st.files
    decreases |ids|
  {
    if ids != [] {
      var url := WorkLinks.CanonicalUrl(ids[0]);
      if url in st.seen {
        ProcessRefsFrame(st, pdfUrl, pages, ids[1..], net);
      } else {
        var fetched := Scrape.ScrapeWork(url, net);
        var claimed := st.(seen := st.seen + {url}, delays := st.delays + fetched.1);
        var rec := RecordFor(url, pdfUrl, pages, fetched.0);
        if rec.Some? {
          var next := Appended(claimed, rec.value);
          ProcessRefsFrame(next, pdfUrl, pages, ids[1..], net);
          var p := ProcessRefs(next, pdfUrl, pages, ids[1..], net).st;
          assert p.results[..|st.results|] == p.results[..|next.results|][..|st.results|];
        }
      }
    }
  }

  /** The reference loop keeps the ledger valid, and every record it appends is for a URL
      that was not seen before, from this document. */
  lemma {:induction false} ProcessRefsValid(st: LedgerState, pdfUrl: string, pages: seq<string>,
                                            ids: seq<string>, net: (string, nat) -> Scrape.Attempt)
    requires Valid(st)
    ensures var p := ProcessRefs(st, pdfUrl, pages, ids, net).st;
      && Valid(p)
      && (forall i :: |st.results| <= i < |p.results| ==> p.results[i].url !in st.seen && p.results[i].pdfUrl == pdfUrl)
    decreases |ids|
  {
    ProcessRefsFrame(st, pdfUrl, pages, ids, net);
    if ids != [] {
      var url := WorkLinks.CanonicalUrl(ids[0]);
      if url in st.seen {
        ProcessRefsValid(st, pdfUrl, pages, ids[1..], net);
      } else {
        var fetched := Scrape.ScrapeWork(url, net);
        var claimed := st.(seen := st.seen + {url}, delays := st.delays + fetched.1);
        var rec := RecordFor(url, pdfUrl, pages, fetched.0);
        if rec.Some? {
          var next := Appended(claimed, rec.value);
          assert Valid(next) by {
            forall i | 0 <= i < |st.results| ensures st.results[i].url != url {
            }
          }
          ProcessRefsValid(next, pdfUrl, pages, ids[1..], net);
          ProcessRefsFrame(next, pdfUrl, pages, ids[1..], net);
          var p := ProcessRefs(next, pdfUrl, pages, ids[1..], net).st;
          assert p.results[|st.results|] == next.results[|st.results|] == rec.value;
        }
      }
    }
  }

  /** Every record the reference loop appends is for one of the document's references. */
  lemma {:induction false} ProcessRefsSources(st: LedgerState, pdfUrl: string, pages: seq<string>,
                                              ids: seq<string>, net: (string, nat) -> Scrape.Attempt)
    ensures var p := ProcessRefs(st, pdfUrl, pages, ids, net).st;
      forall i :: |st.results| <= i < |p.results| ==>
        exists j :: 0 <= j < |ids| && p.results[i].url == WorkLinks.CanonicalUrl(ids[j])
    decreases |ids|
  {
    if ids != [] {
      var url := WorkLinks.CanonicalUrl(ids[0]);
      if url in st.seen {
        ProcessRefsSources(st, pdfUrl, pages, ids[1..], net);
        assert ProcessRefs(st, pdfUrl, pages, ids, net) == ProcessRefs(st, pdfUrl, pages, ids[1..], net);
        OriginShift(ProcessRefs(st, pdfUrl, pages, ids[1..], net).st, ids, |st.results|);
      } else {
        var fetched := Scrape.ScrapeWork(url, net);
        var claimed := st.(seen := st.seen + {url}, delays := st.delays + fetched.1);
        var rec := RecordFor(url, pdfUrl, pages, fetched.0);
        if rec.Some? {
          var next := Appended(claimed, rec.value);
          ProcessRefsSources(next, pdfUrl, pages, ids[1..], net);
          ProcessRefsFrame(next, pdfUrl, pages, ids[1..], net);
          var p := ProcessRefs(next, pdfUrl, pages, ids[1..], net).st;
          assert p.results[|st.results|] == next.results[|st.results|] == rec.value;
          OriginShift(p, ids, |next.results|);
        }
      }
    }
  }

  /** The origin of the records appended after position n, stated for the tail of the
      references, holds for all of them. */
  lemma OriginShift(p: LedgerState, ids: seq<string>, n: nat)
    requires ids != []
    requires forall i :: n <= i < |p.results| ==>
      exists j :: 0 <= j < |ids[1..]| && p.results[i].url == WorkLinks.CanonicalUrl(ids[1..][j])
    ensures forall i :: n <= i < |p.results| ==>
      exists j :: 0 <= j < |ids| && p.results[i].url == WorkLinks.CanonicalUrl(ids[j])
  {
    forall i | n <= i < |p.results|
      ensures exists j :: 0 <= j < |ids| && p.results[i].url == WorkLinks.CanonicalUrl(ids[j])
    {
      var j :| 0 <= j < |ids[1..]| && p.results[i].url == WorkLinks.CanonicalUrl(ids[1..][j]);
      assert ids[j + 1] == ids[1..][j];
    }
  }

  /** When an exception escapes, the URL being handled stays claimed without a record. */
  lemma {:induction false} AbortKeepsClaim(st: LedgerState, pdfUrl: string, pages: seq<string>,
                                           ids: seq<string>, net: (string, nat) -> Scrape.Attempt)
    requires Valid(st)
    requires ProcessRefs(st, pdfUrl, pages, ids, net).aborted
    ensures var p := ProcessRefs(st, pdfUrl, pages, ids, net).st;
      exists u :: u in p.seen && u !in st.seen && forall i :: 0 <= i < |p.results| ==> p.results[i].url != u
    decreases |ids|
  {
    var url := WorkLinks.CanonicalUrl(ids[0]);
    if url in st.seen {
      AbortKeepsClaim(st, pdfUrl, pages, ids[1..], net);
    } else {
      var fetched := Scrape.ScrapeWork(url, net);
      var claimed := st.(seen := st.seen + {url}, delays := st.delays + fetched.1);
      match RecordFor(url, pdfUrl, pages, fetched.0)
      case None =>
        assert forall i :: 0 <= i < |claimed.results| ==> claimed.results[i].url != url;
      case Some(rec) =>
        var next := Appended(claimed, rec);
        assert Valid(next) by {
          forall i | 0 <= i < |st.results| ensures st.results[i].url != url {
          }
        }
        AbortKeepsClaim(next, pdfUrl, pages, ids[1..], net);
    }
  }

  /** What process_pdf changes: a document already processed (without a reset) changes
      nothing; otherwise the seen set only grows, records are only appended, each for a
      URL not seen before, and no URL gets two records; the document becomes processed
      exactly when all its references were handled, and nothing else becomes processed. */
  lemma ProcessDocFacts(st: LedgerState, reprocessAll: bool, pdfUrl: string, env: Env)
    requires Valid(st)
    ensures Skipped(st, reprocessAll, pdfUrl) ==> ProcessDoc(st, reprocessAll, pdfUrl, env) == st
    ensures var st' := ProcessDoc(st, reprocessAll, pdfUrl, env);
      && Valid(st')
      && st.seen <= st'.seen
      && |st.results| <= |st'.results| && st'.results[..|st.results|] == st.results
      && (forall i :: |st.results| <= i < |st'.results| ==> st'.results[i].url !in st.seen && st'.results[i].pdfUrl == pdfUrl)
      && st.processed <= st'.processed <= st.processed + {pdfUrl}
      && (pdfUrl in st'.processed <==> pdfUrl in st.processed || Completes(st, reprocessAll, pdfUrl, env))
  {
    if !Skipped(st, reprocessAll, pdfUrl) && env.download(pdfUrl).Some? {
      var pages := env.download(pdfUrl).value;
      ProcessRefsFrame(st, pdfUrl, pages, WorkLinks.FindWorkIds(Concat(pages)), env.net);
      ProcessRefsValid(st, pdfUrl, pages, WorkLinks.FindWorkIds(Concat(pages)), env.net);
    }
  }

  /** The document is handled to the end: not skipped, downloaded, and no exception
      escaped from its reference loop. */
  predicate Completes(st: LedgerState, reprocessAll: bool, pdfUrl: string, env: Env) {
    && !Skipped(st, reprocessAll, pdfUrl)
    && env.download(pdfUrl).Some?
    && !ProcessRefs(st, pdfUrl, env.download(pdfUrl).value,
                    WorkLinks.FindWorkIds(Concat(env.download(pdfUrl).value)), env.net).aborted
  }

  /** The processed set is what the log would give on the next start-up. */
  predicate Consistent(st: LedgerState) {
    st.processed == LogSet(st.files.log)
  }

  /** Appending a document's URL to the log adds exactly that document. */
  lemma LogAppend(log: Option<seq<string>>, u: string)
    requires u != [] && Trimmed(u)
    ensures LogSet(Some(log.GetOr([]) + [u + "\n"])) == LogSet(log) + {u}
  {
    var before := log.GetOr([]);
    var now := before + [u + "\n"];
    StripLine(u);
    assert forall line :: line in now <==> line in before || line == u + "\n";
    assert LogSet(log) == LogSet(Some(before));
  }

  /** process_pdf keeps the processed set and the log in step, for a document URL as the
      input list gives them (stripped and non-empty). */
  lemma ProcessDocConsistent(st: LedgerState, reprocessAll: bool, pdfUrl: string, env: Env)
    requires Valid(st) && Consistent(st)
    requires pdfUrl != [] && Trimmed(pdfUrl)
    ensures Consistent(ProcessDoc(st, reprocessAll, pdfUrl, env))
  {
    if !Skipped(st, reprocessAll, pdfUrl) && env.download(pdfUrl).Some? {
      var pages := env.download(pdfUrl).value;
      ProcessRefsFrame(st, pdfUrl, pages, WorkLinks.FindWorkIds(Concat(pages)), env.net);
      LogAppend(st.files.log, pdfUrl);
    }
  }

  /** A whole run keeps the ledger valid and consistent, lets the seen set only grow,
      and only appends records. */
  lemma {:induction false} RunDocsFacts(st: LedgerState, reprocessAll: bool, urls: seq<string>, env: Env)
    requires Valid(st) && Consistent(st)
    requires forall i :: 0 <= i < |urls| ==> urls[i] != [] && Trimmed(urls[i])
    ensures var st' := RunDocs(st, reprocessAll, urls, env);
      && Valid(st') && Consistent(st')
      && st.seen <= st'.seen
      && |st.results| <= |st'.results| && st'.results[..|st.results|] == st.results
    decreases |urls|
  {
    if urls != [] {
      var next := ProcessDoc(st, reprocessAll, urls[0], env);
      ProcessDocFacts(st, reprocessAll, urls[0], env);
      ProcessDocConsistent(st, reprocessAll, urls[0], env);
      RunDocsFacts(next, reprocessAll, urls[1..], env);
      var fin := RunDocs(next, reprocessAll, urls[1..], env);
      assert fin.results[..|st.results|] == fin.results[..|next.results|][..|st.results|];
    }
  }

  /** The start-up state is valid and consistent when the earlier results have distinct
      URLs. */
  lemma StartUpValid(files: Files, answer: string)
    requires NoDupUrls(files.results.GetOr([]))
    ensures Valid(StartUp(files, answer)) && Consistent(StartUp(files, answer))
  {
  }

  /** After a successful login, the script never writes two records for one work URL,
      and its log names exactly the documents it processed. */
  lemma ScriptDedup(files: Files, answer: string, input: seq<string>, env: Env)
    requires NoDupUrls(files.results.GetOr([]))
    ensures var st := RunScript(files, answer, true, input, env);
      && NoDupUrls(st.results)
      && st.files.results == Some(st.results)
      && st.processed == LogSet(st.files.log)
  {
    StartUpValid(files, answer);
    RunDocsFacts(StartUp(files, answer), ResetRequested(answer), NonBlank(input), env);
  }

  /** Resuming: a later start-up without a reset, from the files of a run that got past
      the login and has a log, gets back that run's results and processed set, so every
      document the run completed is skipped. */
  lemma ResumeSkipsCompleted(files: Files, answer: string, input: seq<string>, env: Env,
                             answer2: string, pdfUrl: string)
    requires NoDupUrls(files.results.GetOr([]))
    requires !ResetRequested(answer2)
    requires RunScript(files, answer, true, input, env).files.log.Some?
    requires pdfUrl in RunScript(files, answer, true, input, env).processed
    ensures var st := RunScript(files, answer, true, input, env);
      var resumed := StartUp(st.files, answer2);
      && resumed.results == st.results
      && resumed.processed == st.processed
      && ProcessDoc(resumed, false, pdfUrl, env) == resumed
  {
    ScriptDedup(files, answer, input, env);
  }

  // ---------------------------------------------------------------------------
  // The ledger as the script keeps it

  /** The record construction of the reference loop, with the line scan run as the
      script runs it. */
  method MakeRecord(url: string, pdfUrl: string, pages: seq<string>, text: string, outcome: Scrape.Scraped)
    returns (rec: Option<Record>)
    requires text == Concat(pages)
    ensures rec == RecordFor(url, pdfUrl, pages, outcome)
  {
    match outcome {
      case Raised =>
        rec := None;
      case Found(info) =>
        rec := Some(Record(url, pdfUrl, info.title, info.summary, Some(info.stats), false));
      case NotFound =>
        var scanned := PdfScan.ExtractTitleSummary(pages);
        if scanned.Failure? {
          return None;
        }
        var summary := SummaryRegex.ExtractSummary(text).GetOr("");
        var title := scanned.value.title;
        if title == [] {
          title := FilenameTitle.FallbackTitle(FilenameTitle.UrlPath(pdfUrl));
        }
        rec := Some(Record(url, pdfUrl, title, summary, Some(scanned.value.metadata), true));
      case Failed =>
        var scanned := PdfScan.ExtractTitleSummary(pages);
        if scanned.Failure? {
          return None;
        }
        rec := Some(Record(url, pdfUrl, scanned.value.title, scanned.value.summary, None, false));
    }
  }

  /** The URLs of the loaded results. */
  method LoadUrls(loaded: seq<Record>) returns (urls: set<string>)
    ensures urls == UrlsOf(loaded)
  {
    urls := {};
    var i := 0;
    while i < |loaded|
      invariant 0 <= i <= |loaded|
      invariant forall u :: u in urls <==> exists j :: 0 <= j < i && loaded[j].url == u
    {
      urls := urls + {loaded[i].url};
      i := i + 1;
    }
  }

  /** The documents named by the lines of the log. */
  method LoadLog(lines: seq<string>) returns (done: set<string>)
    ensures done == LogSet(Some(lines))
  {
    done := {};
    var i := 0;
    while i < |lines|
      invariant 0 <= i <= |lines|
      invariant forall x :: x in done <==> x != [] && exists j :: 0 <= j < i && Strip(lines[j]) == x
    {
      var u := Strip(lines[i]);
      if u != [] {
        done := done + {u};
      }
      i := i + 1;
    }
    forall x ensures x in done <==> x in LogSet(Some(lines)) {
      LogSetMembers(lines, x);
    }
  }

  class Ledger {
    var results: seq<Record>
    var seen: set<string>
    var processed: set<string>
    var files: Files
    var delays: seq<nat>
    const reprocessAll: bool

    function State(): LedgerState
      reads this
    {
      LedgerState(results, seen, processed, files, delays)
    }

    /** The start-up block: load the earlier results and their URLs, ask about a reset,
        and load the log or clear everything. */
    constructor (files0: Files, answer: string)
      ensures State() == StartUp(files0, answer)
      ensures reprocessAll == ResetRequested(answer)
    {
      var loaded := files0.results.GetOr([]);
      var urls := LoadUrls(loaded);
      var reset := Lower(Strip(answer)) == "y";
      if !reset && files0.log.Some? {
        var done := LoadLog(files0.log.value);
        results, seen, processed, files := loaded, urls, done, files0;
      } else {
        results, seen, processed, files := [], {}, {}, Files(None, None, None);
      }
      delays := [];
      reprocessAll := reset;
    }

    /** process_pdf. */
    method ProcessDocument(pdfUrl: string, env: Env)
      modifies this
      ensures State() == ProcessDoc(old(State()), reprocessAll, pdfUrl, env)
    {
      if !reprocessAll && pdfUrl in processed {
        return;
      }
      var download := env.download(pdfUrl);
      if download.None? {
        return;
      }
      var pages := download.value;
      var text := PdfScan.JoinPages(pages);
      var ids := WorkLinks.FindWorkIds(text);
      var aborted := HandleRefs(pdfUrl, pages, text, ids, env.net);
      if !aborted {
        processed := processed + {pdfUrl};
        files := files.(log := Some(files.log.GetOr([]) + [pdfUrl + "\n"]));
      }
    }

    /** The loop over the document's references. */
    method HandleRefs(pdfUrl: string, pages: seq<string>, text: string, ids: seq<string>,
                      net: (string, nat) -> Scrape.Attempt) returns (aborted: bool)
      requires text == Concat(pages)
      modifies this
      ensures Progress(State(), aborted) == ProcessRefs(old(State()), pdfUrl, pages, ids, net)
    {
      ghost var goal := ProcessRefs(State(), pdfUrl, pages, ids, net);
      var i := 0;
      while i < |ids|
        invariant 0 <= i <= |ids|
        invariant ProcessRefs(State(), pdfUrl, pages, ids[i..], net) == goal
      {
        var url := WorkLinks.CanonicalPrefix + ids[i];
        ProcessRefsAt(State(), pdfUrl, pages, ids, i, net);
        if url in seen {
          i := i + 1;
        } else {
          seen := seen + {url};
          var outcome, waits := Scrape.ScrapeStats(url, net);
          delays := delays + waits;
          var rec := MakeRecord(url, pdfUrl, pages, text, outcome);
          if rec.None? {
            return true;
          }
          results := results + [rec.value];
          delays := delays + [PauseMs];
          i := i + 1;
        }
      }
      return false;
    }

    /** The documents of the input list, one after the other. */
    method RunAll(urls: seq<string>, env: Env)
      modifies this
      ensures State() == RunDocs(old(State()), reprocessAll, urls, env)
    {
      var i := 0;
      while i < |urls|
        invariant 0 <= i <= |urls|
        invariant RunDocs(State(), reprocessAll, urls[i..], env) == RunDocs(old(State()), reprocessAll, urls, env)
      {
        assert urls[i..][0] == urls[i] && urls[i..][1..] == urls[i + 1..];
        ProcessDocument(urls[i], env);
        i := i + 1;
      }
    }

    /** Writing results.json and results.html. */
    method Finish()
      modifies this
      ensures State() == Finalize(old(State()))
    {
      ghost var before := State();
      var rs := results;
      var html := Report.RenderPage(rs);
      FinalizeWrites(before, html);
      files := files.(results := Some(rs), report := Some(html));
      assert State() == before.(files := before.files.(results := Some(rs), report := Some(html)));
    }
  }

  /** The script, from the files of the earlier run to the files it leaves; loggedIn is
      the outcome of the login, which runs after the start-up block. */
  method Execute(files0: Files, answer: string, loggedIn: bool, input: seq<string>, env: Env) returns (out: Files)
    ensures out == RunScript(files0, answer, loggedIn, input, env).files
  {
    var ledger := new Ledger(files0, answer);
    if !loggedIn {
      return ledger.files;
    }
    var urls := NonBlank(input);
    ledger.RunAll(urls, env);
    ledger.Finish();
    out := ledger.files;
  }
}
