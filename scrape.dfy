/**
  `scrape_ao3_stats`: up to three attempts to fetch a work page. A 404 answer ends the
  search at once, a request error or any other 4xx/5xx answer is followed by a sleep of
  2^k seconds (recorded here in milliseconds) and another attempt, and a page that
  arrives is read for its title, summary and dt/dd statistics.
*/
module Scrape {
  import opened Text
  import opened Wrappers
  import opened Dict
  import opened WorkLinks

  /** The parts of a work page the scraper looks at: the text of the title heading, the
      summary block (None: no summary div; Some(None): a summary div without a
      blockquote; Some(Some(t)): the blockquote's text), and the dt and dd texts of the
      statistics list, if the page has one. */
  datatype StatsList = StatsList(terms: seq<string>, descriptions: seq<string>)
  datatype Page = Page(titleTag: Option<string>, summaryDiv: Option<Option<string>>, statsList: Option<StatsList>)

  /** What one request produced: an answer with its status code, or a RequestException
      raised by the transport (timeout, connection failure). */
  datatype Attempt = Response(status: int, page: Page) | RequestError

  /** What the scraper reads from a page. */
  datatype WorkInfo = WorkInfo(title: string, summary: string, stats: Dict)

  /** The outcome of a scrape: the page's contents, the "404" answer, None after three
      failed attempts, or an AttributeError escaping from the page reading. */
  datatype Scraped = Found(info: WorkInfo) | NotFound | Failed | Raised

  const NoTitle: string := "No title found"
  const NoSummaryText: string := "No summary found"
  const Attempts: nat := 3

  /** The delay after failed attempt k, in milliseconds. */
  function Backoff(k: nat): (ms: nat)
    ensures ms >= 1000
  {
    if k == 0 then 1000 else 2 * Backoff(k - 1)
  }

  lemma BackoffSchedule()
    ensures Backoff(0) == 1000 && Backoff(1) == 2000 && Backoff(2) == 4000
  {
  }

  /** `work_url.replace("http://", "https://")`. */
  function Normalize(url: string): string {
    ReplaceAll(url, "http://", "https://")
  }

  /** Canonical work URLs are already https: normalizing leaves them alone. */
  lemma NormalizeCanonical(id: string)
    requires AllDigits(id)
    ensures Normalize(CanonicalUrl(id)) == CanonicalUrl(id)
  {
    var u := CanonicalUrl(id);
    CanonicalLetters(id);
    forall k ensures !OccursAt(u, "http://", k) {
      if 0 <= k && k + 7 <= |u| {
        var w := u[k..k + 7];
        assert w[0] == u[k];
        if k == 0 {
          assert w[4] == u[4] == 's';
        } else if k == 11 {
          assert w[1] == u[12] == 'i';
        }
      }
    }
    ReplaceAbsent(u, "http://", "https://");
  }

  // ---------------------------------------------------------------------------
  // The statistics list

  /** The statistics key of a dt text and the value of a dd text. */
  function StatLabel(dt: string): string { Lower(Strip(dt)) }
  function StatValue(dd: string): string { Strip(dd) }

  function Min(a: nat, b: nat): nat { if a <= b then a else b }

  /** `zip(dts, dds)` with each pair read as label and value: as many pairs as the
      shorter list has elements. */
  function StatPairs(dts: seq<string>, dds: seq<string>): (ps: seq<(string, string)>)
    ensures |ps| == Min(|dts|, |dds|)
    ensures forall i :: 0 <= i < |ps| ==> ps[i] == (StatLabel(dts[i]), StatValue(dds[i]))
  {
    seq(Min(|dts|, |dds|), i requires 0 <= i < Min(|dts|, |dds|) => (StatLabel(dts[i]), StatValue(dds[i])))
  }

  /** The stats dict: the pairs assigned in order, later labels overwriting earlier ones. */
  function StatsOf(dts: seq<string>, dds: seq<string>): Dict {
    PutAll([], StatPairs(dts, dds))
  }

  /** A label's value in the stats dict is that of its last pair. */
  lemma StatsLookup(dts: seq<string>, dds: seq<string>, k: string)
    ensures Get(StatsOf(dts, dds), k) == LastValue(StatPairs(dts, dds), k)
  {
    PutAllLookup([], StatPairs(dts, dds), k);
  }

  /** The stats dict holds each label once, and its keys are exactly the labels of the
      pairs. */
  lemma StatsKeys(dts: seq<string>, dds: seq<string>, k: string)
    ensures NoDupKeys(StatsOf(dts, dds))
    ensures k in Keys(StatsOf(dts, dds)) <==> exists i :: 0 <= i < Min(|dts|, |dds|) && StatLabel(dts[i]) == k
  {
    var ps := StatPairs(dts, dds);
    PutAllKeys([], ps);
    LabelsOfPairs(dts, dds, k);
  }

  /** The stats dict lists its labels in the order of their first dt, which is the order
      in which the report prints them. */
  lemma StatsOrder(dts: seq<string>, dds: seq<string>)
    ensures Keys(StatsOf(dts, dds)) == NewKeys([], StatPairs(dts, dds))
  {
    PutAllOrder([], StatPairs(dts, dds));
    assert Keys([]) == [];
  }

  lemma LabelsOfPairs(dts: seq<string>, dds: seq<string>, k: string)
    ensures (exists i :: 0 <= i < |StatPairs(dts, dds)| && StatPairs(dts, dds)[i].0 == k)
            <==> exists i :: 0 <= i < Min(|dts|, |dds|) && StatLabel(dts[i]) == k
  {
    var ps := StatPairs(dts, dds);
    if exists i :: 0 <= i < |ps| && ps[i].0 == k {
      var i :| 0 <= i < |ps| && ps[i].0 == k;
      assert StatLabel(dts[i]) == k;
    }
    if exists i :: 0 <= i < Min(|dts|, |dds|) && StatLabel(dts[i]) == k {
      var i :| 0 <= i < Min(|dts|, |dds|) && StatLabel(dts[i]) == k;
      assert ps[i].0 == k;
    }
  }

  /** The `for dt, dd in zip(...)` loop. */
  method CollectStats(dts: seq<string>, dds: seq<string>) returns (stats: Dict)
    ensures stats == StatsOf(dts, dds)
  {
    ghost var ps := StatPairs(dts, dds);
    stats := [];
    var n := Min(|dts|, |dds|);
    var i := 0;
    while i < n
      invariant i <= n
      invariant stats == PutAll([], ps[..i])
    {
      var term := StatLabel(dts[i]);
      var value := StatValue(dds[i]);
      assert ps[..i + 1][..i] == ps[..i];
      stats := Put(stats, term, value);
      i := i + 1;
    }
    assert ps[..n] == ps;
  }

  // ---------------------------------------------------------------------------
  // One page and the retry loop

  /** Reading a page that arrived: a summary div without a blockquote raises; otherwise
      the title is the stripped heading text or "No title found", the summary the
      stripped blockquote text or "No summary found", and the stats those of the list,
      or none. */
  function ReadPage(page: Page): (r: Scraped)
    ensures r.Found? || r.Raised?
    ensures r.Raised? <==> page.summaryDiv == Some(None)
    ensures r.Found? ==>
              && (page.titleTag.None? ==> r.info.title == NoTitle)
              && (page.titleTag.Some? ==> r.info.title == Strip(page.titleTag.value))
              && (page.summaryDiv.None? ==> r.info.summary == NoSummaryText)
              && (page.summaryDiv.Some? && page.summaryDiv.value.Some? ==>
                    r.info.summary == Strip(page.summaryDiv.value.value))
              && (page.statsList.None? ==> r.info.stats == [])
              && (page.statsList.Some? ==>
                    r.info.stats == StatsOf(page.statsList.value.terms, page.statsList.value.descriptions))
  {
    var title := if page.titleTag.Some? then Strip(page.titleTag.value) else NoTitle;
    var stats := if page.statsList.Some? then StatsOf(page.statsList.value.terms, page.statsList.value.descriptions) else [];
    match page.summaryDiv
    case Some(None) => Raised
    case Some(Some(text)) => Found(WorkInfo(title, Strip(text), stats))
    case None => Found(WorkInfo(title, NoSummaryText, stats))
  }

  /** What an attempt decides: a final outcome, or None for another try. A 404 answer is
      final, a request error or any other 4xx or 5xx answer asks for another try, and
      any other answer is read as a page. */
  function Decide(a: Attempt): (r: Option<Scraped>)
    ensures r.Some? ==> !r.value.Failed?
    ensures r == Some(NotFound) <==> a.Response? && a.status == 404
    ensures r.None? <==> a.RequestError? || (a.Response? && 400 <= a.status < 600 && a.status != 404)
    ensures a.Response? && !(400 <= a.status < 600) ==> r == Some(ReadPage(a.page))
  {
    match a
    case RequestError => None
    case Response(status, page) =>
      if status == 404 then Some(NotFound)
      else if 400 <= status < 600 then None
      else Some(ReadPage(page))
  }

  /** The attempts from k on, with the delays slept after each failed one. */
  function FetchFrom(url: string, net: (string, nat) -> Attempt, k: nat): (Scraped, seq<nat>)
    decreases Attempts - k
  {
    if k >= Attempts then (Failed, [])
    else match Decide(net(url, k))
      case Some(r) => (r, [])
      case None =>
        var rest := FetchFrom(url, net, k + 1);
        (rest.0, [Backoff(k)] + rest.1)
  }

  /** scrape_ao3_stats on the work URL, the answers being given by net (URL, attempt). */
  function ScrapeWork(workUrl: string, net: (string, nat) -> Attempt): (Scraped, seq<nat>) {
    FetchFrom(Normalize(workUrl), net, 0)
  }

  /** The retry schedule from attempt k: every attempt before the deciding one failed and
      was followed by its backoff; the outcome is Failed exactly when all attempts failed. */
  lemma {:induction false} FetchFromSchedule(url: string, net: (string, nat) -> Attempt, k: nat)
    requires k <= Attempts
    ensures k + |FetchFrom(url, net, k).1| <= Attempts
    ensures forall j :: 0 <= j < |FetchFrom(url, net, k).1| ==> FetchFrom(url, net, k).1[j] == Backoff(k + j)
    ensures forall j :: k <= j < k + |FetchFrom(url, net, k).1| ==> Decide(net(url, j)).None?
    decreases Attempts - k
  {
    if k >= Attempts {
      assert FetchFrom(url, net, k) == (Failed, []);
    } else if Decide(net(url, k)).Some? {
      assert FetchFrom(url, net, k) == (Decide(net(url, k)).value, []);
    } else {
      FetchFromSchedule(url, net, k + 1);
      var rest := FetchFrom(url, net, k + 1);
      var ds := [Backoff(k)] + rest.1;
      assert FetchFrom(url, net, k) == (rest.0, ds);
      forall j | 0 <= j < |ds| ensures ds[j] == Backoff(k + j) {
        if j > 0 {
          assert ds[j] == rest.1[j - 1];
        }
      }
    }
  }

  /** The outcome from attempt k is Failed exactly when every remaining attempt failed,
      and otherwise the decision of the first attempt that did not fail. */
  lemma {:induction false} FetchFromOutcome(url: string, net: (string, nat) -> Attempt, k: nat)
    requires k <= Attempts
    ensures k + |FetchFrom(url, net, k).1| <= Attempts
    ensures FetchFrom(url, net, k).0.Failed? <==> k + |FetchFrom(url, net, k).1| == Attempts
    ensures k + |FetchFrom(url, net, k).1| < Attempts ==>
              Decide(net(url, k + |FetchFrom(url, net, k).1|)) == Some(FetchFrom(url, net, k).0)
    decreases Attempts - k
  {
    if k >= Attempts {
      assert FetchFrom(url, net, k) == (Failed, []);
    } else if Decide(net(url, k)).Some? {
      assert FetchFrom(url, net, k) == (Decide(net(url, k)).value, []);
    } else {
      FetchFromOutcome(url, net, k + 1);
      var rest := FetchFrom(url, net, k + 1);
      assert FetchFrom(url, net, k) == (rest.0, [Backoff(k)] + rest.1);
    }
  }

  /** At most three attempts; the k-th failed attempt is followed by a 2^k second delay;
      a 404 or a page ends the attempts at once; None (Failed) comes only after three
      failures, with delays 1, 2 and 4 seconds. */
  lemma ScrapeSchedule(workUrl: string, net: (string, nat) -> Attempt)
    ensures var (r, ds) := ScrapeWork(workUrl, net);
      && |ds| <= 3
      && (forall j :: 0 <= j < |ds| ==> ds[j] == Backoff(j) && Decide(net(Normalize(workUrl), j)).None?)
      && (r.Failed? <==> ds == [1000, 2000, 4000])
      && (!r.Failed? ==> Decide(net(Normalize(workUrl), |ds|)) == Some(r))
  {
    FetchFromSchedule(Normalize(workUrl), net, 0);
    FetchFromOutcome(Normalize(workUrl), net, 0);
    BackoffSchedule();
  }

  /** A 404 on the first attempt: NotFound, no sleep. */
  lemma NotFoundAtOnce(workUrl: string, net: (string, nat) -> Attempt)
    requires net(Normalize(workUrl), 0).Response? && net(Normalize(workUrl), 0).status == 404
    ensures ScrapeWork(workUrl, net) == (NotFound, [])
  {
  }

  /** The retry loop as the script runs it; `delays` records the sleeps. */
  method ScrapeStats(workUrl: string, net: (string, nat) -> Attempt) returns (r: Scraped, delays: seq<nat>)
    ensures (r, delays) == ScrapeWork(workUrl, net)
  {
    var url := Normalize(workUrl);
    delays := [];
    var attempt := 0;
    assert delays + FetchFrom(url, net, 0).1 == FetchFrom(url, net, 0).1;
    while attempt < Attempts
      invariant 0 <= attempt <= Attempts
      invariant |delays| == attempt
      invariant FetchFrom(url, net, 0) == (FetchFrom(url, net, attempt).0, delays + FetchFrom(url, net, attempt).1)
    {
      var response := net(url, attempt);
      match response {
        case Response(status, page) =>
          if status == 404 {
            assert FetchFrom(url, net, attempt) == (NotFound, []);
            assert delays + [] == delays;
            return NotFound, delays;
          }
          if !(400 <= status < 600) {
            r := ReadPageMethod(page);
            assert FetchFrom(url, net, attempt) == (r, []);
            assert delays + [] == delays;
            return r, delays;
          }
        case RequestError =>
      }
      ghost var rest := FetchFrom(url, net, attempt + 1);
      assert FetchFrom(url, net, attempt) == (rest.0, [Backoff(attempt)] + rest.1);
      assert delays + ([Backoff(attempt)] + rest.1) == (delays + [Backoff(attempt)]) + rest.1;
      delays := delays + [Backoff(attempt)];
      attempt := attempt + 1;
    }
    assert FetchFrom(url, net, attempt) == (Failed, []);
    assert delays + [] == delays;
    return Failed, delays;
  }

  /** The page reading, with the stats loop. */
  method ReadPageMethod(page: Page) returns (r: Scraped)
    ensures r == ReadPage(page)
  {
    var title := if page.titleTag.Some? then Strip(page.titleTag.value) else NoTitle;
    if page.summaryDiv == Some(None) {
      return Raised;
    }
    var summary := if page.summaryDiv.Some? then Strip(page.summaryDiv.value.value) else NoSummaryText;
    var stats: Dict := [];
    if page.statsList.Some? {
      stats := CollectStats(page.statsList.value.terms, page.statsList.value.descriptions);
    }
    return Found(WorkInfo(title, summary, stats));
  }
}
