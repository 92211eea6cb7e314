/**
  One entry of `all_results` (and of results.json): the canonical work URL, the
  document it was found in, the title and summary to show, the statistics or metadata
  dict (None when the work page could not be fetched), and whether the work page
  answered 404.
*/
module Records {
  import opened Wrappers
  import opened Dict

  datatype Record = Record(
    url: string,
    pdfUrl: string,
    title: string,
    summary: string,
    stats: Option<Dict>,
    notFound: bool)

  /** The `url` of every record. */
  function UrlsOf(rs: seq<Record>): (urls: set<string>)
    ensures forall i :: 0 <= i < |rs| ==> rs[i].url in urls
    ensures forall u :: u in urls ==> exists i :: 0 <= i < |rs| && rs[i].url == u
  {
    set i | 0 <= i < |rs| :: rs[i].url
  }

  /** No two records share a work URL. */
  predicate NoDupUrls(rs: seq<Record>) {
    forall i, j :: 0 <= i < j < |rs| ==> rs[i].url != rs[j].url
  }
}
