/**
 * One paper from pages to podcast, as `process_single_pdf` and the tail of
 * `process_url` run it: clean the text, name the outputs, summarise. Writing
 * the script file and speaking the audio file are left to the caller; the
 * model records their names and the script that goes into both.
 */
module Pipeline {
  import opened Wrappers
  import opened Strings
  import opened Cleaning
  import opened Summarizer
  import opened Paths
  import opened Naming

  /** What one run produces. */
  datatype Podcast = Podcast(
    source: string,       // the PDF's path
    stem: string,         // the sanitised title both outputs are named after
    audioFile: string,
    scriptFile: string,
    script: string,       // what is written to `scriptFile` and spoken into `audioFile`
    requests: nat)        // chat completion requests sent for this paper

  /** The run for the PDF at `pdfPath` whose pages read `pages`. */
  function PodcastFor(template: string, pdfPath: string, pages: seq<string>, customPrompt: Option<string>, service: Service): Podcast {
    var stem := FileStem(PdfTitle(pages), pdfPath);
    var files := OutputFilesFor(stem);
    var session := Summary(template, customPrompt, CleanedText(pages), service);
    Podcast(pdfPath, stem, files.audio, files.transcript, session.script, session.requests)
  }

  /** Both outputs share a safe, non-empty stem taken from the title on the first page
      (or from the file name when that page has none), and the script summarises the
      cleaned text of all pages. */
  lemma PodcastForProperties(template: string, pdfPath: string, pages: seq<string>, customPrompt: Option<string>, service: Service)
    ensures var p := PodcastFor(template, pdfPath, pages, customPrompt, service);
      && p.source == pdfPath
      && p.stem != [] && IsSafeName(p.stem)
      && p.audioFile == p.stem + ".mp3" && p.scriptFile == p.stem + ".txt"
      && (PdfTitle(pages).None? ==> p.stem == FallbackPrefix + Sanitize(Basename(pdfPath)))
      && (PdfTitle(pages).Some? ==> p.stem == Sanitize(PdfTitle(pages).value))
      && (PdfTitle(pages).Some? ==> |p.stem| == |PdfTitle(pages).value|)
      && Session(p.script, p.requests) == Summary(template, customPrompt, CleanedText(pages), service)
  {
    var title := PdfTitle(pages);
    FileStemProperties(title, pdfPath);
    if title.Some? {
      assert title.value != [];
    }
  }

  /** `process_single_pdf` (and `process_url` after the download), for the script
      whose prompt template is `template`. */
  method ProcessSinglePdf(pdfPath: string, pages: seq<string>, customPrompt: Option<string>, template: string, service: Service)
    returns (p: Podcast)
    ensures p == PodcastFor(template, pdfPath, pages, customPrompt, service)
  {
    var cleanedText, paperTitle := ExtractCleanedText(pages);
    var title: string;
    if paperTitle.None? || paperTitle.value == [] {
      title := FallbackPrefix + Basename(pdfPath);
    } else {
      title := paperTitle.value;
    }
    var stem := Sanitize(title);
    var script, requests := Summarize(cleanedText, customPrompt, template, service);
    p := Podcast(pdfPath, stem, stem + ".mp3", stem + ".txt", script, requests);
  }
}
