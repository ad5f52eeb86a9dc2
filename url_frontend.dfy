/**
 * The URL script: a paper's page on arXiv, IEEE Xplore or the ACM Digital Library
 * is downloaded to one fixed PDF path and then run like a local PDF. The download
 * is given as a function `download(publisher, address)` that yields the pages of
 * the fetched PDF, or `None` when the publisher answers with an error status or
 * the page holds no PDF link; `service` is the chat completion service.
 */
module UrlFrontend {
  import opened Wrappers
  import opened Strings
  import opened Summarizer
  import opened Naming
  import opened Pipeline

  /** `download_pdf_from_arxiv`: the PDF lives where the abstract page is, with
      `/abs/` turned into `/pdf/` and `.pdf` appended. */
  function ArxivPdfUrl(url: string): (pdfUrl: string)
    ensures EndsWith(pdfUrl, ".pdf")
    ensures |pdfUrl| == |url| + 4
    ensures !Contains(url, "/abs/") ==> pdfUrl == url + ".pdf"
  {
    if !Contains(url, "/abs/") then
      ReplaceWithoutOccurrence(url, "/abs/", "/pdf/");
      ReplaceAll(url, "/abs/", "/pdf/") + ".pdf"
    else
      ReplaceAll(url, "/abs/", "/pdf/") + ".pdf"
  }

  /** The rewrite cuts the address at its leftmost non-overlapping `/abs/` occurrences,
      none of the pieces holds `/abs/`, and joining the pieces back with `/abs/`
      restores the address the user gave. */
  lemma ArxivPdfUrlPieces(url: string)
    ensures var pieces := SplitOn(url, "/abs/");
      && ArxivPdfUrl(url) == JoinWith(pieces, "/pdf/") + ".pdf"
      && JoinWith(pieces, "/abs/") == url
      && forall i :: 0 <= i < |pieces| ==> !Contains(pieces[i], "/abs/")
  {
    ReplaceIsSplitJoin(url, "/abs/", "/pdf/");
    SplitJoinRoundTrip(url, "/abs/");
    PiecesAvoidPattern(url, "/abs/");
  }

  /** An abstract page `<site>/abs/<id>` is fetched from `<site>/pdf/<id>.pdf` when
      `/abs/` occurs nowhere else in it. */
  lemma ArxivAbstractPage(site: string, id: string)
    requires !Contains(site + "/abs", "/abs/")
    requires !Contains(id, "/abs/")
    ensures ArxivPdfUrl(site + "/abs/" + id) == site + "/pdf/" + id + ".pdf"
  {
    var url := site + "/abs/" + id;
    var k := |site|;
    assert OccursAt(url, "/abs/", k);
    ContainsIff(site + "/abs", "/abs/");
    forall i: nat | i < k ensures !OccursAt(url, "/abs/", i) {
      assert !OccursAt(site + "/abs", "/abs/", i);
      assert url[i..i + 5] == (site + "/abs")[i..i + 5];
    }
    ReplaceFirstOccurrence(url, k, "/abs/", "/pdf/");
    ReplaceWithoutOccurrence(id, "/abs/", "/pdf/");
    assert url[..k] == site && url[k + 5..] == id;
  }

  /** The publishers `process_url` knows. */
  datatype Publisher = Arxiv | Ieee | Acm

  const UnsupportedUrl := "URL must be from Arxiv, IEEE Xplore, or ACM."

  /** The dispatch of `process_url`: the first of the three host names found in the
      URL picks the downloader; with none of them the URL is refused. */
  function Route(url: string): (r: Result<Publisher, string>) {
    if Contains(url, "arxiv.org") then Success(Arxiv)
    else if Contains(url, "ieeexplore.ieee.org") then Success(Ieee)
    else if Contains(url, "dl.acm.org") then Success(Acm)
    else Failure(UnsupportedUrl)
  }

  /** Which downloader runs, stated by where the host names occur in the URL: arXiv
      whenever `arxiv.org` occurs anywhere, IEEE Xplore only without it, ACM only
      without both, and a refusal exactly when none of the three occurs. */
  lemma RouteByOccurrence(url: string)
    ensures Route(url) == Success(Arxiv) <==> exists i: nat :: OccursAt(url, "arxiv.org", i)
    ensures Route(url) == Success(Ieee) <==>
      && (forall i: nat :: !OccursAt(url, "arxiv.org", i))
      && (exists i: nat :: OccursAt(url, "ieeexplore.ieee.org", i))
    ensures Route(url) == Success(Acm) <==>
      && (forall i: nat :: !OccursAt(url, "arxiv.org", i))
      && (forall i: nat :: !OccursAt(url, "ieeexplore.ieee.org", i))
      && (exists i: nat :: OccursAt(url, "dl.acm.org", i))
    ensures Route(url) == Failure(UnsupportedUrl) <==>
      && (forall i: nat :: !OccursAt(url, "arxiv.org", i))
      && (forall i: nat :: !OccursAt(url, "ieeexplore.ieee.org", i))
      && (forall i: nat :: !OccursAt(url, "dl.acm.org", i))
  {
    ContainsIff(url, "arxiv.org");
    ContainsIff(url, "ieeexplore.ieee.org");
    ContainsIff(url, "dl.acm.org");
  }

  /** Where every download is written before it is read back. */
  const PdfOutputPath := "downloaded_paper.pdf"

  /** What `process_url` ends with. */
  datatype UrlOutcome =
    | Podcasted(podcast: Podcast)
    | Refused(message: string)            // the `ValueError` for an unknown host
    | DownloadFailed(address: string)     // a downloader's exception

  /** `process_url`. `requested` is the address handed to the downloader, if any: the
      rewritten PDF address for arXiv, the landing page itself (which is searched for
      the PDF link) for IEEE Xplore and ACM. */
  method ProcessUrl(url: string, customPrompt: Option<string>,
                    download: (Publisher, string) -> Option<seq<string>>, service: Service)
    returns (outcome: UrlOutcome, requested: Option<string>)
    ensures Route(url).Failure? ==> requested == None && outcome == Refused(UnsupportedUrl)
    ensures Route(url) == Success(Arxiv) ==> requested == Some(ArxivPdfUrl(url))
    ensures Route(url).Success? && Route(url) != Success(Arxiv) ==> requested == Some(url)
    ensures Route(url).Success? ==>
      && requested.Some?
      && (download(Route(url).value, requested.value).None? ==> outcome == DownloadFailed(requested.value))
      && (download(Route(url).value, requested.value).Some? ==>
            outcome == Podcasted(PodcastFor(PaperUrlTemplate, PdfOutputPath, download(Route(url).value, requested.value).value,
                                            customPrompt, service)))
  {
    var publisher: Publisher;
    if Contains(url, "arxiv.org") {
      publisher := Arxiv;
    } else if Contains(url, "ieeexplore.ieee.org") {
      publisher := Ieee;
    } else if Contains(url, "dl.acm.org") {
      publisher := Acm;
    } else {
      return Refused(UnsupportedUrl), None;
    }
    var address := if publisher == Arxiv then ArxivPdfUrl(url) else url;
    requested := Some(address);
    var fetched := download(publisher, address);
    if fetched.None? {
      return DownloadFailed(address), requested;
    }
    var p := ProcessSinglePdf(PdfOutputPath, fetched.value, customPrompt, PaperUrlTemplate, service);
    outcome := Podcasted(p);
  }

  /** The download path is a plain, safe file name. */
  lemma DownloadPathIsPlain()
    ensures '/' !in PdfOutputPath && IsSafeName(PdfOutputPath)
  {
    forall k | 0 <= k < |PdfOutputPath| ensures !IsUnsafe(PdfOutputPath[k]) {
    }
  }

  /** Without a title on the first page, a downloaded paper's outputs are named
      `podcast_downloaded_paper.pdf.mp3` and `podcast_downloaded_paper.pdf.txt`. */
  lemma DownloadedPaperStem()
    ensures FileStem(None, PdfOutputPath) == FallbackPrefix + PdfOutputPath
    ensures OutputFilesFor(FileStem(None, PdfOutputPath))
         == OutputFiles(FallbackPrefix + PdfOutputPath + ".mp3", FallbackPrefix + PdfOutputPath + ".txt")
  {
    DownloadPathIsPlain();
    FallbackForPlainName([], PdfOutputPath);
    assert [] + PdfOutputPath == PdfOutputPath;
  }
}
