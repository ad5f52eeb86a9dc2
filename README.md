# Paper-to-Podcast, modelled in Dafny

Paper-to-Podcast turns research papers into podcasts. There are two command-line scripts:

- `paper_to_podcast.py` takes a local PDF or a folder of PDFs.
- `paper_to_podcast_url.py` takes an arXiv, IEEE Xplore or ACM Digital Library URL. It downloads the PDF to `downloaded_paper.pdf`.

For every paper, both scripts:

- extract the text of the pages and take a title candidate from page 0;
- delete bracketed numeric citation markers (`[12]`);
- cut the text at the first whole-word "references" and strip it;
- split the words into chunks of 3000;
- ask a chat completion service for a summary of each chunk, in order, stopping at the first rejected request;
- write the trimmed replies, one per line, to `<title>.txt` and speak them into `<title>.mp3`.

The title is sanitised for the file system. Without a title, it falls back to `podcast_` and the PDF's base name.

This project models the deterministic logic between those library calls and proves what it promises. Each module lives in its own file.

- `Strings` gives Python's `isspace`, `strip`, `split`, `' '.join`, `in` and `replace` on `seq<char>`, and subsequences. Its whitespace, `IsSpace`, is Python's full `isspace` set, Unicode spaces included.
- `Cleaning` covers the page loop of `extract_cleaned_text_from_pdf`:
  - the title regex `\b[A-Za-z0-9][^\n]+`;
  - citation removal with `re.sub(r'\[\d+\]', '', ...)`;
  - the case-insensitive `\b(references|REFERENCES)\b` cut;
  - the final strip.

  The method `ExtractCleanedText` keeps the source's loop. The two scripts carry identical copies of this function (`paper_to_podcast.py:13-40`, `paper_to_podcast_url.py:86-115`), so they share one model.
- `Chunking` covers the 3000-word windows and their rejoined chunk strings.
- `Summarizer` builds the prompts and runs the request loop against an oracle `Service`. The oracle maps the request number and the prompt to a completion or an `InvalidRequestError`. It holds both scripts' prompt templates: the local one has a sentence about the title that the URL one lacks.
- `Paths` and `Naming` cover `os.path.basename`, `os.path.join`, the title fallback, the sanitisation `re.sub(r'[\\/*?:"<>|]', "_", ...)` and the output file names.
- `Pipeline` gives one paper from pages to podcast: `process_single_pdf`, and the tail of `process_url`.
- `LocalFrontend` covers `process_input_path` and the folder loop of `process_pdf_folder`.
- `UrlFrontend` covers the arXiv address rewrite, the host-name dispatch of `process_url`, and the download as an oracle.

Two places where the code does less than its own description or its pattern's look suggests:

- **Citation markers.** The docstring of `extract_cleaned_text_from_pdf` (`paper_to_podcast.py:18`) promises that bracketed in-text references such as `[1]` and `[2]` are removed. The code makes one left-to-right `re.sub` pass, so `[[1]2]` becomes `[2]`, which is again a marker. `Cleaning.NestedMarkerSurvives` proves this, and the model keeps the single pass.
- **Title.** The regex `\b[A-Za-z0-9][^\n]+` has no line anchor. It matches at the first word boundary before an ASCII letter or digit, which can be in the middle of a line, so `(1) Intro` gives `1) Intro`. `Cleaning.FindTitle` states the regex's leftmost match.

## Model

| member | source | states |
|---|---|---|
| Strings.StripSpec | paper_to_podcast.py:40 | `strip()` leaves a slice of the text with only whitespace around it; the result neither starts nor ends with whitespace, and it is empty exactly when the text is all whitespace |
| Strings.Words | paper_to_podcast.py:48 | `split()` yields only non-empty pieces without whitespace |
| Strings.WordsSkipSpace | paper_to_podcast.py:48 | a leading whitespace character adds no word: `split()` of `c + t` is `split()` of `t` |
| Strings.WordThenSpace | paper_to_podcast.py:48 | a whitespace-free word followed by a whitespace character is the first word, then `split()` goes on after that character; a whitespace-free word alone splits into itself. With `WordsSkipSpace` and the empty text, this fixes `split()` on every text |
| Strings.SplitJoinWords | paper_to_podcast.py:48-49 | joining whitespace-free words with single spaces and splitting again gives the same words back |
| Strings.ContainsIff | paper_to_podcast_url.py:183-188 | the substring test `t in s` holds exactly when `t` occurs at some index of `s` |
| Strings.ReplaceAll | paper_to_podcast_url.py:17 | replacing a pattern by one of equal length keeps the length |
| Strings.ReplaceWithoutOccurrence | paper_to_podcast_url.py:17 | `replace` leaves a string without an occurrence of the pattern unchanged |
| Strings.ReplaceIsSplitJoin | paper_to_podcast_url.py:17 | `s.replace(p, q)` equals `q.join(s.split(p))` |
| Strings.SplitJoinRoundTrip | paper_to_podcast_url.py:17 | `p.join(s.split(p))` is `s` again |
| Strings.PiecesAvoidPattern | paper_to_podcast_url.py:17 | no piece between the replaced occurrences contains the pattern |
| Strings.ReplaceUpToOccurrence | paper_to_podcast_url.py:17 | from any index up to an occurrence with none in between, `replace` copies the text, writes the replacement and continues after the occurrence |
| Strings.ReplaceFirstOccurrence | paper_to_podcast_url.py:17 | up to the first occurrence, `replace` copies the string, writes the replacement for that occurrence and continues after it |
| Paths.Basename | paper_to_podcast.py:115 | the base name holds no `/`, ends the path, and a `/` stands right before it when it is shorter than the path |
| Paths.BasenameOfJoin | paper_to_podcast.py:142 | the base name of a folder joined with an entry name without `/` is that entry name |
| Naming.Sanitize | paper_to_podcast.py:119 | same length, no unsafe character left, every unsafe character becomes `_`, every other one stays in place |
| Naming.SanitizeFixesSafeNames | paper_to_podcast.py:119 | a name is left unchanged exactly when it is already safe; sanitising twice equals sanitising once |
| Naming.SanitizeConcat | paper_to_podcast.py:119 | sanitising distributes over concatenation |
| Naming.ResolveTitle | paper_to_podcast.py:114-115 | a found non-empty title is kept; otherwise the title is `podcast_` followed by the base name and holds no `/`; never empty |
| Naming.OutputFilesFor | paper_to_podcast.py:120-121 | the audio and script names are the stem followed by `.mp3` and `.txt` |
| Naming.FileStemProperties | paper_to_podcast.py:114-121 | the stem is non-empty and safe, is the sanitised found title when there is one, and is `podcast_` plus the sanitised base name without a title |
| Naming.FallbackForPlainName | paper_to_podcast.py:114-119 | without a title, a PDF with a plain safe file name in any folder gets the stem `podcast_<name>` |
| Cleaning.LineEnd | paper_to_podcast.py:30 | the greedy `[^\n]+` runs to the first line break at or after its start, or to the end |
| Cleaning.FirstTitleStart | paper_to_podcast.py:30 | the leftmost position from which the title pattern matches, or none if it matches nowhere |
| Cleaning.FindTitle | paper_to_podcast.py:29-32 | None exactly when the pattern matches nowhere; otherwise the stripped rest of the line from the leftmost match, non-empty, starting with an ASCII letter or digit and free of line breaks |
| Cleaning.MarkerLength | paper_to_podcast.py:35 | the length of the citation marker at the start of the text, and 0 exactly when none starts there |
| Cleaning.RemoveCitations | paper_to_podcast.py:35 | removing citation markers never lengthens the text |
| Cleaning.RemoveCitationsUpToMarker | paper_to_podcast.py:35 | from any index up to a marker with none starting in between, the pass copies the text, deletes that marker and continues after it |
| Cleaning.RemoveCitationsAtFirstMarker | paper_to_podcast.py:35 | the pass copies the text before the leftmost marker, deletes that marker and continues after it; with `NoMarkerUnchanged` this fixes the result on every text: the leftmost non-overlapping markers go and every other character stays in order |
| Cleaning.CitationRemovalKeepsOrder | paper_to_podcast.py:35 | citation removal only deletes: the result is a subsequence of the text |
| Cleaning.NoMarkerUnchanged | paper_to_podcast.py:35 | a text without a marker comes back unchanged |
| Cleaning.MarkerShortens | paper_to_podcast.py:35 | a text with a marker comes back strictly shorter |
| Cleaning.CitationRemovalUnchangedIff | paper_to_podcast.py:35 | the text comes back unchanged exactly when it holds no citation marker |
| Cleaning.NestedMarkerSurvives | paper_to_podcast.py:35 | one pass turns `[[1]2]` into `[2]`, which is a marker again |
| Cleaning.FindReferences | paper_to_podcast.py:36 | the leftmost whole-word, case-insensitive "references", or none |
| Cleaning.CutAtReferences | paper_to_podcast.py:36-38 | the result is a prefix of the text: the whole text when no whole-word "references" occurs, otherwise the text up to the first one |
| Cleaning.CutLeavesNoReferences | paper_to_podcast.py:36-38 | after the cut no whole-word "references" is left |
| Cleaning.CleanedTextProperties | paper_to_podcast.py:34-40 | the cleaned text is a subsequence of the concatenated pages, holds no whole-word "references", and neither starts nor ends with whitespace |
| Cleaning.ExtractCleanedText | paper_to_podcast.py:20-40 | the page loop and the cleaning steps return the cleaned text of all pages and the title from page 0 alone |
| Chunking.Windows | paper_to_podcast.py:47-49 | the number of windows is the word count divided by 3000, rounded up; no window is empty or over 3000 words; all but the last hold exactly 3000 |
| Chunking.WindowsFlatten | paper_to_podcast.py:49 | the windows, concatenated in order, are the word list again |
| Chunking.WindowIsSlice | paper_to_podcast.py:49 | window `i` is the slice of the words that starts at `i * 3000` |
| Chunking.ChunkTexts | paper_to_podcast.py:47-49 | one chunk string per window |
| Chunking.ChunksReproduceWords | paper_to_podcast.py:48-49 | the words of chunk `i` are window `i`; every chunk but the last has 3000 words and none is empty; the chunks' words in order are the text's words |
| Summarizer.Prompts | paper_to_podcast.py:52-59 | one prompt per chunk |
| Summarizer.PromptsShape | paper_to_podcast.py:53-59 | with a non-empty custom prompt every prompt is that prompt alone; otherwise each prompt is the template followed by its chunk |
| Summarizer.AnsweredFrom | paper_to_podcast.py:61-70 | the requests from `i` up to the returned index are answered, and the request at that index is rejected unless all were answered |
| Summarizer.AnsweredIsFirstRejection | paper_to_podcast.py:68-70 | the number of answered requests is the index of the first rejected one, or the number of prompts |
| Summarizer.TranscriptStep | paper_to_podcast.py:67 | an answered request appends its trimmed reply and a line break to the script |
| Summarizer.TranscriptGrows | paper_to_podcast.py:67 | the script only grows: an earlier script is a prefix of every later one |
| Summarizer.SessionOfSpec | paper_to_podcast.py:51-72 | all requests before the first rejection are answered; the rejected request is the last one sent; the script holds exactly the replies before it |
| Summarizer.OnlySentRequestsMatter | paper_to_podcast.py:68-70 | two services that agree on the requests actually sent give the same script and request count |
| Summarizer.SummarizeChunks | paper_to_podcast.py:51-72 | the loop's script and number of sent requests are the session of the chunks' prompts |
| Summarizer.Summarize | paper_to_podcast.py:42-72 | chunking and then the loop give the session of the text |
| Pipeline.PodcastForProperties | paper_to_podcast.py:113-125 | the run records its PDF; both outputs share a non-empty safe stem, the sanitised title from page 0 when there is one, or `podcast_` plus the sanitised base name; the script is the summary of the cleaned text |
| Pipeline.ProcessSinglePdf | paper_to_podcast.py:107-134 | the run is the one for the PDF's path and pages |
| LocalFrontend.Classify | paper_to_podcast.py:151-156 | a directory goes to the folder; otherwise a file ending in `.pdf` is processed alone; anything else is invalid (each as an if-and-only-if) |
| LocalFrontend.PdfEntries | paper_to_podcast.py:140-141 | an entry is processed exactly when it is listed and ends in `.pdf` |
| LocalFrontend.PdfEntriesInOrder | paper_to_podcast.py:140-141 | the processed entries keep the listing order: they are a subsequence of the listing |
| LocalFrontend.PdfPaths | paper_to_podcast.py:140-142 | one path per `.pdf` entry |
| LocalFrontend.PdfPathsJoinEntries | paper_to_podcast.py:142 | path `i` is the folder joined with the `i`-th `.pdf` entry |
| LocalFrontend.PdfPathsAreTheEntries | paper_to_podcast.py:140-142 | the base name of path `i` is the `i`-th `.pdf` entry of the listing |
| LocalFrontend.ProcessPdfFolder | paper_to_podcast.py:136-145 | the runs are, in order, the runs of the folder's `.pdf` paths |
| LocalFrontend.ProcessInputPath | paper_to_podcast.py:147-156 | a folder yields the runs of its `.pdf` entries; a `.pdf` file yields its own run; anything else yields the invalid-input message and no run |
| UrlFrontend.ArxivPdfUrl | paper_to_podcast_url.py:17 | the PDF address ends in `.pdf` and is four characters longer than the URL; it is the URL plus `.pdf` when `/abs/` does not occur |
| UrlFrontend.ArxivPdfUrlPieces | paper_to_podcast_url.py:17 | the PDF address is the URL's `/abs/`-free pieces joined with `/pdf/`, plus `.pdf`; joining the same pieces with `/abs/` restores the URL |
| UrlFrontend.ArxivAbstractPage | paper_to_podcast_url.py:17 | the abstract page `<site>/abs/<id>` is fetched from `<site>/pdf/<id>.pdf` |
| UrlFrontend.RouteByOccurrence | paper_to_podcast_url.py:183-190 | arXiv exactly when `arxiv.org` occurs; IEEE Xplore exactly when only `ieeexplore.ieee.org` of the first two occurs; ACM exactly when only `dl.acm.org` occurs; refusal exactly when none occurs |
| UrlFrontend.ProcessUrl | paper_to_podcast_url.py:177-209 | an unknown host is refused before any request; the address requested is the rewritten PDF address for arXiv and the URL itself for IEEE Xplore and ACM; a failed download ends the run with that address; otherwise the downloaded pages run through the single-PDF pipeline with the URL script's template, at `downloaded_paper.pdf` |
| UrlFrontend.DownloadPathIsPlain | paper_to_podcast_url.py:181 | `downloaded_paper.pdf` holds no `/` and no unsafe character |
| UrlFrontend.DownloadedPaperStem | paper_to_podcast_url.py:192-198 | without a title the outputs are `podcast_downloaded_paper.pdf.mp3` and `podcast_downloaded_paper.pdf.txt` |

## Left out

- PDF parsing (`fitz.open`, `load_page`, `get_text`) is foreign. The pages' texts are an input. An unreadable PDF's exception, which would end a folder loop early, is not modelled.
- The chat completion call (`openai.ChatCompletion.create`, model name, token limit) is a network service.
  - It is modelled as an oracle from the request number and the prompt to a completion or an `InvalidRequestError`.
  - Other exceptions propagate in the source. They are not modelled.
  - For a folder, the run of each PDF sees its own oracle (`serviceFor(path)`).
- Speech synthesis with `pyttsx3`, voice selection, and writing the script file are foreign output. The model records the file names and the script written to both.
- HTTP downloads and the IEEE Xplore and ACM link scraping are network I/O and HTML parsing. They are modelled as the `download` oracle, which gives the fetched PDF's pages or a failure. The exception texts with status codes are reduced to `DownloadFailed` with the address requested.
- `os.listdir`, `os.path.isdir` and `os.path.isfile` are file-system queries. They are given as functions, and the listing order is the given sequence's order.
- Overwriting outputs when two papers share a stem is file-system behaviour. The model shows it only as equal names.
- `argparse`, the `__main__` blocks and all `print` logging are command-line plumbing. They are left out.
- Unicode regex behaviour is left out because the model's regex classes are ASCII:
  - Python's `\b` and `\d` also accept non-ASCII word characters and digits.
  - Case-insensitive matching also folds some non-ASCII letters (U+017F) onto the keyword's letters.
- `os.path` is modelled with POSIX behaviour: `/` is the only separator, and there are no drive letters. `Paths.Basename` and `Paths.JoinPath` state it. On Windows, `C:\papers\x.pdf` without a title gives the stem `podcast_x.pdf` in the program but `podcast_C__papers_x.pdf` in the model.
- `UrlFrontend.Route`, `Paths.JoinPath` and `Strings.JoinWith` have no rows of their own. They are specified by lemmas about them: `RouteByOccurrence`; `BasenameOfJoin` and `PdfPathsJoinEntries`; and `SplitJoinWords`, `ReplaceIsSplitJoin` and `ArxivPdfUrlPieces`.
- `Summarizer.SummarizeChunks`: a request's contents are not returned. The method returns the number of requests sent, and its proof shows that request `j` carries prompt `j`.
- `Pipeline.ProcessSinglePdf`: the prompt template is a parameter. `LocalFrontend.ProcessInputPath` passes the local script's template and `UrlFrontend.ProcessUrl` the URL script's.
- `LocalFrontend.ProcessPdfFolder`: it states its runs through the recursive predicate `RunsFor`, which matches the last run with the last path and recurses on the rest. The model does not state a separate index-by-index lemma.
