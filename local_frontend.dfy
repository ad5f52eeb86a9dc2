/**
 * The local-file script: a path names either a folder, whose `.pdf` entries are
 * processed one after the other, or a single PDF. The file system is given as
 * functions: `isDir`, `isFile`, `listDir` (the entry names in listing order) and
 * `pagesOf` (the page texts of a PDF). `serviceFor` is the chat completion
 * service as the run for a given PDF sees it.
 */
module LocalFrontend {
  import opened Wrappers
  import opened Strings
  import opened Summarizer
  import opened Paths
  import opened Pipeline

  /** Where `process_input_path` sends a path. */
  datatype PathKind = Folder | SinglePdf | InvalidPath

  /** A directory wins; otherwise it must be an existing file ending in `.pdf`. */
  function Classify(path: string, isDir: bool, isFile: bool): (kind: PathKind)
    ensures kind == Folder <==> isDir
    ensures kind == SinglePdf <==> !isDir && isFile && EndsWith(path, ".pdf")
    ensures kind == InvalidPath <==> !isDir && (!isFile || !EndsWith(path, ".pdf"))
  {
    if isDir then Folder
    else if isFile && EndsWith(path, ".pdf") then SinglePdf
    else InvalidPath
  }

  predicate IsPdfName(name: string) {
    EndsWith(name, ".pdf")
  }

  /** The entries `process_pdf_folder` acts on, in listing order. */
  function PdfEntries(entries: seq<string>): (pdfs: seq<string>)
    ensures forall e :: e in pdfs <==> e in entries && IsPdfName(e)
    ensures |pdfs| <= |entries|
  {
    if entries == [] then []
    else
      var init := PdfEntries(entries[..|entries| - 1]);
      var last := entries[|entries| - 1];
      assert entries == entries[..|entries| - 1] + [last];
      if IsPdfName(last) then init + [last] else init
  }

  /** The `.pdf` entries keep their listing order: they are a subsequence of the listing. */
  lemma {:induction false} PdfEntriesInOrder(entries: seq<string>)
    ensures IsSubseq(PdfEntries(entries), entries)
  {
    if entries != [] {
      var init := entries[..|entries| - 1];
      var last := entries[|entries| - 1];
      PdfEntriesInOrder(init);
      if IsPdfName(last) {
        SubseqAppend(PdfEntries(init), init, last);
      } else {
        SubseqExtend(PdfEntries(init), init, last);
      }
      assert init + [last] == entries;
    }
  }

  /** The paths `process_pdf_folder` builds, one per `.pdf` entry in listing order. */
  function PdfPaths(folder: string, entries: seq<string>): (paths: seq<string>)
    ensures |paths| == |PdfEntries(entries)|
  {
    if entries == [] then []
    else
      var init := PdfPaths(folder, entries[..|entries| - 1]);
      var last := entries[|entries| - 1];
      if IsPdfName(last) then init + [JoinPath(folder, last)] else init
  }

  /** Path `i` is the folder joined with the `i`-th `.pdf` entry. */
  lemma {:induction false} PdfPathsJoinEntries(folder: string, entries: seq<string>)
    ensures var paths := PdfPaths(folder, entries);
      forall i :: 0 <= i < |paths| ==> paths[i] == JoinPath(folder, PdfEntries(entries)[i])
  {
    if entries != [] {
      var init := entries[..|entries| - 1];
      PdfPathsJoinEntries(folder, init);
    }
  }

  /** Entry names never hold a `/`, so each path's base name is a `.pdf` entry of the
      listing, the `i`-th one for path `i`. */
  lemma PdfPathsAreTheEntries(folder: string, entries: seq<string>)
    requires forall e :: e in entries ==> '/' !in e
    ensures var paths := PdfPaths(folder, entries);
      forall i :: 0 <= i < |paths| ==>
        && Basename(paths[i]) == PdfEntries(entries)[i]
        && Basename(paths[i]) in entries
        && IsPdfName(Basename(paths[i]))
  {
    var paths := PdfPaths(folder, entries);
    var pdfs := PdfEntries(entries);
    PdfPathsJoinEntries(folder, entries);
    forall i | 0 <= i < |paths| ensures Basename(paths[i]) == pdfs[i] {
      assert pdfs[i] in pdfs;
      BasenameOfJoin(folder, pdfs[i]);
    }
  }

  /** `runs` holds, in order, the run for each of `paths`: the last run is the one for
      the last path, and the others are the runs for the other paths. */
  predicate RunsFor(runs: seq<Podcast>, template: string, paths: seq<string>, customPrompt: Option<string>,
                    pagesOf: string -> seq<string>, serviceFor: string -> Service)
    decreases |paths|
  {
    && |runs| == |paths|
    && (paths != [] ==>
         var path := paths[|paths| - 1];
         && runs[|runs| - 1] == PodcastFor(template, path, pagesOf(path), customPrompt, serviceFor(path))
         && RunsFor(runs[..|runs| - 1], template, paths[..|paths| - 1], customPrompt, pagesOf, serviceFor))
  }

  /** `process_pdf_folder`: every entry ending in `.pdf` is processed, in listing
      order, as the PDF at `folder` joined with its name; other entries are skipped.
      `template` is the prompt template of the script (the local-file one). */
  method ProcessPdfFolder(template: string, folder: string, entries: seq<string>, customPrompt: Option<string>,
                          pagesOf: string -> seq<string>, serviceFor: string -> Service)
    returns (runs: seq<Podcast>)
    ensures RunsFor(runs, template, PdfPaths(folder, entries), customPrompt, pagesOf, serviceFor)
  {
    runs := [];
    for i := 0 to |entries|
      invariant RunsFor(runs, template, PdfPaths(folder, entries[..i]), customPrompt, pagesOf, serviceFor)
    {
      var filename := entries[i];
      assert entries[..i + 1][..i] == entries[..i];
      if EndsWith(filename, ".pdf") {
        var pdfFilePath := JoinPath(folder, filename);
        var p := ProcessSinglePdf(pdfFilePath, pagesOf(pdfFilePath), customPrompt, template, serviceFor(pdfFilePath));
        ghost var paths := PdfPaths(folder, entries[..i]);
        assert (paths + [pdfFilePath])[..|paths|] == paths;
        assert (runs + [p])[..|runs|] == runs;
        runs := runs + [p];
      }
    }
    assert entries[..|entries|] == entries;
  }

  /** What `process_input_path` does: runs, or the message for a path it cannot use. */
  datatype Outcome = Processed(runs: seq<Podcast>) | InvalidInput(message: string)

  function InvalidPathMessage(path: string): string {
    "Invalid input path: " + path + ". Please provide a folder or a valid PDF file."
  }

  /** `process_input_path`: a folder yields one run per `.pdf` entry, a `.pdf` file one
      run, and anything else no run at all. */
  method ProcessInputPath(inputPath: string, customPrompt: Option<string>,
                          isDir: string -> bool, isFile: string -> bool, listDir: string -> seq<string>,
                          pagesOf: string -> seq<string>, serviceFor: string -> Service)
    returns (outcome: Outcome)
    ensures isDir(inputPath) ==>
      && outcome.Processed?
      && RunsFor(outcome.runs, LocalFilesTemplate, PdfPaths(inputPath, listDir(inputPath)), customPrompt, pagesOf, serviceFor)
    ensures !isDir(inputPath) && isFile(inputPath) && EndsWith(inputPath, ".pdf") ==>
      outcome == Processed([PodcastFor(LocalFilesTemplate, inputPath, pagesOf(inputPath), customPrompt, serviceFor(inputPath))])
    ensures Classify(inputPath, isDir(inputPath), isFile(inputPath)) == InvalidPath ==>
      outcome == InvalidInput(InvalidPathMessage(inputPath))
  {
    match Classify(inputPath, isDir(inputPath), isFile(inputPath))
    case Folder =>
      var runs := ProcessPdfFolder(LocalFilesTemplate, inputPath, listDir(inputPath), customPrompt, pagesOf, serviceFor);
      outcome := Processed(runs);
    case SinglePdf =>
      var p := ProcessSinglePdf(inputPath, pagesOf(inputPath), customPrompt, LocalFilesTemplate, serviceFor(inputPath));
      outcome := Processed([p]);
    case InvalidPath =>
      outcome := InvalidInput(InvalidPathMessage(inputPath));
  }
}
