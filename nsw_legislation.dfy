/**
 * The NSW legislation scraper (nsw_legislation.py): which of the four
 * search tables still need searching, what a search appends to the index
 * files, the URL rules for a document's type and its PDF rendering, and
 * how a document is fetched, with one fallback to the PDF rendering when
 * the HTML one fails.
 */
module NswLegislation {
  import opened Wrappers
  import opened Records
  import opened Sequences
  import opened Citation

  const SourceName: Source := "nsw_legislation"

  /** The four tables of legislation in force, searched in this order. */
  const SearchBases: seq<string> := [
    "https://legislation.nsw.gov.au/tables/pubactsif",
    "https://legislation.nsw.gov.au/tables/pvtactsif",
    "https://legislation.nsw.gov.au/tables/siif",
    "https://legislation.nsw.gov.au/tables/epiif"
  ]

  // ---------------------------------------------------------------------
  // Searches

  /** The bases not yet in `searches`, in their original order. */
  function Unrecorded(bases: seq<string>, searches: seq<string>): (r: seq<string>)
    ensures IsSubseq(r, bases)
    ensures forall b :: b in r <==> b in bases && b !in searches
    decreases |bases|
  {
    if bases == [] then []
    else
      var rest := Unrecorded(bases[..|bases| - 1], searches);
      var last := bases[|bases| - 1];
      assert bases == bases[..|bases| - 1] + [last];
      if last in searches then rest else rest + [last]
  }

  /** The search tables a list of requests names. */
  function Params(reqs: seq<Request>): seq<string>
  {
    seq(|reqs|, i requires 0 <= i < |reqs| => reqs[i].params)
  }

  /** The searches still to run (nsw_legislation.py:20-23): one request per
      search table missing from `searches.jsonl`, which counts as empty when
      the file does not exist. */
  function GetSearches(saved: Option<seq<string>>): (reqs: seq<Request>)
    ensures |reqs| <= |SearchBases|
    ensures IsSubseq(Params(reqs), SearchBases)
    ensures forall q :: q in reqs <==>
      q.source == SourceName && q.params in SearchBases && q.params !in saved.GetOr([])
  {
    var bases := Unrecorded(SearchBases, saved.GetOr([]));
    SubseqElements(bases, SearchBases);
    var reqs := seq(|bases|, i requires 0 <= i < |bases| => Request(SourceName, bases[i]));
    assert forall q: Request :: q in reqs <==> q.source == SourceName && q.params in bases by {
      forall q: Request | q.source == SourceName && q.params in bases
        ensures q in reqs
      {
        var i :| 0 <= i < |bases| && bases[i] == q.params;
        assert reqs[i] == q;
      }
    }
    assert Params(reqs) == bases;
    reqs
  }

  /** A search recorded in the file is not proposed again, and every other
      table keeps its place in the answer. */
  lemma RecordedSearchDropped(searches: seq<string>, base: string)
    ensures forall q :: q in GetSearches(Some(searches + [base])) <==>
      q in GetSearches(Some(searches)) && q.params != base
  {
  }

  /** Nothing is left to search exactly when every table is recorded. */
  lemma {:induction false} GetSearchesEmpty(saved: Option<seq<string>>)
    ensures GetSearches(saved) == [] <==> forall b :: b in SearchBases ==> b in saved.GetOr([])
  {
    var reqs := GetSearches(saved);
    if reqs == [] {
      forall b | b in SearchBases
        ensures b in saved.GetOr([])
      {
        assert Request(SourceName, b) !in reqs;
      }
    } else {
      assert reqs[0] in reqs;
    }
  }

  /** Every document path on a table page is relative to this prefix. */
  const ViewWhole: string := "https://www.legislation.nsw.gov.au/view/whole"

  /** The index entry for a document path found on a table page: the path is
      appended to the `view/whole` prefix (nsw_legislation.py:26). */
  function DocumentRequest(path: string): (req: Request)
    ensures req.source == SourceName
    ensures |req.params| == |ViewWhole| + |path|
    ensures req.params[..|ViewWhole|] == ViewWhole && req.params[|ViewWhole|..] == path
  {
    Request(SourceName, ViewWhole + path)
  }

  /** The index entries of all paths found on a page, in page order. */
  function DocumentRequests(paths: seq<string>): (reqs: seq<Request>)
    ensures |reqs| == |paths|
    ensures forall i :: 0 <= i < |paths| ==> reqs[i] == DocumentRequest(paths[i])
  {
    seq(|paths|, i requires 0 <= i < |paths| => DocumentRequest(paths[i]))
  }

  /** Different paths give different documents, so no page entry is lost. */
  lemma DocumentRequestInjective(p: string, q: string)
    requires DocumentRequest(p) == DocumentRequest(q)
    ensures p == q
  {
    assert p == DocumentRequest(p).params[|ViewWhole|..];
  }

  // ---------------------------------------------------------------------
  // Document URLs

  const HtmlView: string := "/view/whole/html"
  const PdfView: string := "/view/whole/pdf"

  /** The rendering of a document the fallback asks for (nsw_legislation.py:66). */
  function PdfUrl(url: string): string
  {
    ReplaceAll(url, HtmlView, PdfView)
  }

  /** Behind a prefix with no `/v` in it, an HTML view path becomes the PDF
      view path, and nothing after it changes when it holds no second one. */
  lemma PdfUrlSwapsView(host: string, q: string)
    requires forall i :: 0 <= i < |host| - 1 ==> !(host[i] == '/' && host[i + 1] == 'v')
    requires !Contains(q, HtmlView)
    ensures PdfUrl(host + HtmlView + q) == host + PdfView + q
  {
    var s := host + (HtmlView + q);
    forall i | 0 <= i < |host|
      ensures !MatchAt(s, HtmlView, i)
    {
      MatchAtStart(s, HtmlView, i);
    }
    ReplaceAllSkip(host, HtmlView + q, HtmlView, PdfView);
    assert (HtmlView + q)[..|HtmlView|] == HtmlView;
    assert (HtmlView + q)[|HtmlView|..] == q;
    ReplaceAllAbsent(q, HtmlView, PdfView);
    assert host + HtmlView + q == s;
    assert host + PdfView + q == host + (PdfView + q);
  }

  /** A document of type `primary_legislation` is an Act: its URL contains
      `/act-` (nsw_legislation.py:53). */
  function DocumentType(url: string): (t: string)
    ensures t == "primary_legislation" || t == "secondary_legislation"
  {
    if Contains(url, "/act-") then "primary_legislation" else "secondary_legislation"
  }

  // ---------------------------------------------------------------------
  // Documents

  /** A corpus line written by this scraper (nsw_legislation.py:51-58). */
  datatype NswDocument = NswDocument(
    text: string, kind: string, jurisdiction: string,
    source: Source, citation: string, url: string)

  /** The document built from a parsed page: its text, its type from the
      URL, the fixed jurisdiction and source, and the normalised citation of
      its title. */
  function DocumentOf(url: string, title: string, text: string): (d: NswDocument)
    ensures d.url == url && d.text == text
    ensures d.kind == "primary_legislation" <==> Contains(url, "/act-")
    ensures d.kind == "primary_legislation" || d.kind == "secondary_legislation"
    ensures d.jurisdiction == "new_south_wales" && d.source == SourceName
    ensures IsCitation(d.citation)
  {
    NormaliseCitationShape(title);
    NswDocument(text, DocumentType(url), "new_south_wales", SourceName, NormaliseCitation(title), url)
  }

  /** What one request for a URL can give. `Parsed` is a page whose
      toolbar, navigation result, text column and title were all found;
      `Undecodable` is a body that is not UTF-8 (a PDF); `Incomplete` is a
      page missing one of those elements; `Failed` is any other error. */
  datatype Page = Parsed(title: string, text: string) | Undecodable | Incomplete | Failed

  /** The corpus lines one attempt writes. */
  function Stored(url: string, page: Page): (docs: seq<NswDocument>)
    ensures |docs| <= 1 && (page.Parsed? <==> |docs| == 1)
    ensures forall d :: d in docs ==> d.url == url && IsCitation(d.citation)
  {
    if page.Parsed? then [DocumentOf(url, page.title, page.text)] else []
  }

  /** The `downloaded.jsonl` lines one attempt writes: the URL is recorded
      whenever the attempt does not fail, including when the page held no
      document. */
  function Recorded(url: string, page: Page): (reqs: seq<Request>)
    ensures reqs == [] <==> page.Failed?
    ensures forall q :: q in reqs ==> q == Request(SourceName, url)
  {
    if page.Failed? then [] else [Request(SourceName, url)]
  }

  /** How a call ends: normally, or by raising the error that names `url`. */
  datatype Outcome = Done | Raised(url: string)

  /** The files the scraper appends to. */
  class NswFiles {
    /** `indices/nsw_legislation/documents.jsonl` */
    var documents: seq<Request>
    /** `indices/nsw_legislation/searches.jsonl` */
    var searches: seq<string>
    /** `corpus.jsonl` */
    var corpus: seq<NswDocument>
    /** `indices/downloaded.jsonl` */
    var downloaded: seq<Request>

    constructor(documents: seq<Request>, searches: seq<string>, corpus: seq<NswDocument>, downloaded: seq<Request>)
      ensures this.documents == documents && this.searches == searches
      ensures this.corpus == corpus && this.downloaded == downloaded
    {
      this.documents := documents;
      this.searches := searches;
      this.corpus := corpus;
      this.downloaded := downloaded;
    }

    /** Run one search (nsw_legislation.py:25-30): the documents found on the
        table page are appended to the index first, and only then is the
        search recorded, so a recorded search always has its documents. */
    method GetSearch(base: string, paths: seq<string>)
      modifies this`documents, this`searches
      ensures documents == old(documents) + DocumentRequests(paths)
      ensures searches == old(searches) + [base]
      ensures base !in Unrecorded(SearchBases, searches)
    {
      documents := documents + DocumentRequests(paths);
      searches := searches + [base];
    }

    /** Fetch one document (nsw_legislation.py:32-69). A page that cannot be
        decoded or lacks an element still counts as downloaded; any other
        error is retried once on the PDF rendering, and raised if that fails
        too. `fetch(u, retry)` is the response to the request for `u`, on
        the first attempt or on the retry, so the two attempts may answer
        differently even for the same URL. `tried` lists the URLs requested,
        in order. */
    method GetDocument(url: string, recursive: bool, fetch: (string, bool) -> Page) returns (outcome: Outcome, tried: seq<string>)
      modifies this`corpus, this`downloaded
      decreases if recursive then 0 else 1
      ensures 1 <= |tried| <= 2 && tried[0] == url
      ensures |tried| == 2 <==> fetch(url, recursive).Failed? && !recursive
      ensures |tried| == 2 ==> tried[1] == PdfUrl(url)
      ensures !fetch(url, recursive).Failed? ==>
        && corpus == old(corpus) + Stored(url, fetch(url, recursive))
        && downloaded == old(downloaded) + Recorded(url, fetch(url, recursive))
        && outcome == Done
      ensures fetch(url, recursive).Failed? && recursive ==>
        corpus == old(corpus) && downloaded == old(downloaded) && outcome == Raised(url)
      ensures fetch(url, recursive).Failed? && !recursive ==>
        var pdf := PdfUrl(url);
        && corpus == old(corpus) + Stored(pdf, fetch(pdf, true))
        && downloaded == old(downloaded) + Recorded(pdf, fetch(pdf, true))
        && outcome == (if fetch(pdf, true).Failed? then Raised(pdf) else Done)
      ensures !recursive ==>
        corpus == old(corpus) + Written(url, fetch).0 && downloaded == old(downloaded) + Written(url, fetch).1
    {
      var page := fetch(url, recursive);
      tried := [url];
      if page.Failed? {
        if !recursive {
          var retried;
          outcome, retried := GetDocument(PdfUrl(url), true, fetch);
          tried := tried + retried;
          return;
        }
        outcome := Raised(url);
        return;
      }
      if page.Parsed? {
        corpus := corpus + [DocumentOf(url, page.title, page.text)];
      }
      downloaded := downloaded + [Request(SourceName, url)];
      outcome := Done;
    }
  }

  /** What a top-level fetch of `url` adds to the corpus and to the download
      record: what the first attempt gives, or when it fails what the retry
      on the PDF rendering gives. */
  function Written(url: string, fetch: (string, bool) -> Page): (w: (seq<NswDocument>, seq<Request>))
    ensures w.1 == [] <==> fetch(url, false).Failed? && fetch(PdfUrl(url), true).Failed?
  {
    if !fetch(url, false).Failed? then (Stored(url, fetch(url, false)), Recorded(url, fetch(url, false)))
    else (Stored(PdfUrl(url), fetch(PdfUrl(url), true)), Recorded(PdfUrl(url), fetch(PdfUrl(url), true)))
  }

  /** A top-level fetch writes at most one document and at most one download
      line, and a document only together with its download line, under the
      same URL. */
  lemma WrittenBounds(url: string, fetch: (string, bool) -> Page)
    ensures |Written(url, fetch).0| <= 1 && |Written(url, fetch).1| <= 1
    ensures |Written(url, fetch).0| == 1 ==>
      Written(url, fetch).1 == [Request(SourceName, Written(url, fetch).0[0].url)]
  {
  }

  /** After the fallback, the download record and the document name the PDF
      URL, not the one asked for. */
  lemma {:induction false} FallbackRecordsPdf(url: string, fetch: (string, bool) -> Page)
    requires fetch(url, false).Failed? && !fetch(PdfUrl(url), true).Failed?
    ensures Written(url, fetch).1 == [Request(SourceName, PdfUrl(url))]
  {
  }

  /** The fallback for a document's HTML rendering asks for the PDF
      rendering of the same document (nsw_legislation.py:66). */
  lemma FallbackOfHtmlView(q: string)
    requires !Contains(q, HtmlView)
    ensures PdfUrl(DocumentRequest("/html" + q).params) == ViewWhole + "/pdf" + q
  {
    var host := "https://www.legislation.nsw.gov.au";
    assert ViewWhole + ("/html" + q) == host + HtmlView + q;
    assert ViewWhole + "/pdf" + q == host + PdfView + q;
    PdfUrlSwapsView(host, q);
  }

  /** A URL without an HTML rendering path is retried unchanged. */
  lemma RetryOfOtherUrl(url: string)
    requires !Contains(url, HtmlView)
    ensures PdfUrl(url) == url
  {
    ReplaceAllAbsent(url, HtmlView, PdfView);
  }
}
