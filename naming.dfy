/**
 * Naming the outputs of one paper (`process_single_pdf`, `process_url`): the
 * extracted title, or `"podcast_"` and the PDF's base name when there is none,
 * with every character Windows forbids in file names replaced by `_`.
 */
module Naming {
  import opened Wrappers
  import opened Strings
  import opened Paths

  // The characters of the title pattern's class: backslash, slash, star, question
  // mark, colon, double quote, the two angle brackets and the vertical bar.
  predicate IsUnsafe(c: char) {
    c == '\\' || c == '/' || c == '*' || c == '?' || c == ':' || c == '"' || c == '<' || c == '>' || c == '|'
  }

  predicate IsSafeName(s: string) {
    forall k :: 0 <= k < |s| ==> !IsUnsafe(s[k])
  }

  /** The substitution of `_` for that class: each unsafe character becomes `_`,
      every other character stays where it was. */
  function Sanitize(t: string): (r: string)
    ensures |r| == |t|
    ensures IsSafeName(r)
    ensures forall k :: 0 <= k < |t| && !IsUnsafe(t[k]) ==> r[k] == t[k]
    ensures forall k :: 0 <= k < |t| && IsUnsafe(t[k]) ==> r[k] == '_'
  {
    if t == [] then []
    else [if IsUnsafe(t[0]) then '_' else t[0]] + Sanitize(t[1..])
  }

  /** A name that is already safe is left alone, so sanitising twice changes nothing more. */
  lemma SanitizeFixesSafeNames(t: string)
    ensures IsSafeName(t) <==> Sanitize(t) == t
    ensures Sanitize(Sanitize(t)) == Sanitize(t)
  {
    if IsSafeName(t) {
      assert forall k :: 0 <= k < |t| ==> Sanitize(t)[k] == t[k];
    }
    var r := Sanitize(t);
    assert forall k :: 0 <= k < |r| ==> Sanitize(r)[k] == r[k];
  }

  const FallbackPrefix := "podcast_"

  /** `if not paper_title: paper_title = "podcast_" + os.path.basename(path)`. */
  function ResolveTitle(found: Option<string>, pdfPath: string): (title: string)
    ensures found.Some? && found.value != [] ==> title == found.value
    ensures found.None? || found.value == [] ==>
      && IsPrefix(FallbackPrefix, title)
      && title[|FallbackPrefix|..] == Basename(pdfPath)
      && '/' !in title
    ensures title != []
  {
    if found.None? || found.value == [] then FallbackPrefix + Basename(pdfPath) else found.value
  }

  /** The file stem both outputs share. */
  function FileStem(found: Option<string>, pdfPath: string): string {
    Sanitize(ResolveTitle(found, pdfPath))
  }

  /** The `.mp3` and `.txt` files written for a paper. */
  datatype OutputFiles = OutputFiles(audio: string, transcript: string)

  function OutputFilesFor(stem: string): (files: OutputFiles)
    ensures EndsWith(files.audio, ".mp3") && EndsWith(files.transcript, ".txt")
    ensures files.audio[..|files.audio| - 4] == stem && files.transcript[..|files.transcript| - 4] == stem
  {
    OutputFiles(stem + ".mp3", stem + ".txt")
  }

  /** Sanitising works character by character, so it distributes over concatenation. */
  lemma {:induction false} SanitizeConcat(a: string, b: string)
    ensures Sanitize(a + b) == Sanitize(a) + Sanitize(b)
    decreases |a|
  {
    if a != [] {
      assert (a + b)[1..] == a[1..] + b;
      SanitizeConcat(a[1..], b);
    }
  }

  lemma PrefixIsSafe()
    ensures Sanitize(FallbackPrefix) == FallbackPrefix
  {
    assert IsSafeName(FallbackPrefix);
    SanitizeFixesSafeNames(FallbackPrefix);
  }

  /** The stem is never empty and never holds an unsafe character: a found title is
      sanitised (keeping its length), and without one the stem is the prefix and the sanitised base name. */
  lemma FileStemProperties(found: Option<string>, pdfPath: string)
    ensures FileStem(found, pdfPath) != []
    ensures IsSafeName(FileStem(found, pdfPath))
    ensures found.Some? && found.value != [] ==> FileStem(found, pdfPath) == Sanitize(found.value)
    ensures found.Some? && found.value != [] ==> |FileStem(found, pdfPath)| == |found.value|
    ensures found.None? || found.value == [] ==>
      FileStem(found, pdfPath) == FallbackPrefix + Sanitize(Basename(pdfPath))
  {
    if found.None? || found.value == [] {
      var b := Basename(pdfPath);
      assert ResolveTitle(found, pdfPath) == FallbackPrefix + b;
      SanitizeConcat(FallbackPrefix, b);
      PrefixIsSafe();
    }
  }

  /** Without a title, a PDF whose file name is plain and safe, in any folder, gives
      its outputs the stem `podcast_` followed by that name. */
  lemma FallbackForPlainName(dir: string, name: string)
    requires dir == [] || dir[|dir| - 1] == '/'
    requires '/' !in name && IsSafeName(name)
    ensures FileStem(None, dir + name) == FallbackPrefix + name
  {
    BasenameAfterSlash(dir, name);
    FileStemProperties(None, dir + name);
    SanitizeFixesSafeNames(name);
  }
}
