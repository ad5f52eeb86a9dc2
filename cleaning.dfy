/**
 * Text extraction after the PDF library has produced the text of each page:
 * the title candidate of page 0, the removal of bracketed numeric citation
 * markers, the cut at the bibliography heading and the final strip.
 * The page texts are an input; opening and parsing the PDF is not modelled.
 */
module Cleaning {
  import opened Wrappers
  import opened Strings

  // ---------------------------------------------------------------------------
  // Title: the first match of  \b[A-Za-z0-9][^\n]+  on page 0, stripped
  // ---------------------------------------------------------------------------

  /** The title pattern can start matching at `i`: a word boundary, an ASCII
      letter or digit, and at least one more character on the same line. */
  predicate TitleStartsAt(s: string, i: nat) {
    && i + 1 < |s|
    && IsAsciiAlnum(s[i])
    && s[i + 1] != '\n'
    && (i == 0 || !IsWordChar(s[i - 1]))
  }

  /** Where the greedy `[^\n]+` stops: the first line break at or after `j`, or the end. */
  function LineEnd(s: string, j: nat): (e: nat)
    requires j <= |s|
    ensures j <= e <= |s|
    ensures forall k :: j <= k < e ==> s[k] != '\n'
    ensures e < |s| ==> s[e] == '\n'
    decreases |s| - j
  {
    if j == |s| || s[j] == '\n' then j else LineEnd(s, j + 1)
  }

  /** The leftmost position, from `i` on, where the title pattern matches. */
  function FirstTitleStart(s: string, i: nat): (r: Option<nat>)
    requires i <= |s|
    ensures r.Some? ==> i <= r.value && TitleStartsAt(s, r.value)
    ensures r.Some? ==> forall k: nat :: i <= k < r.value ==> !TitleStartsAt(s, k)
    ensures r.None? ==> forall k: nat :: i <= k ==> !TitleStartsAt(s, k)
    decreases |s| - i
  {
    if i == |s| then None
    else if TitleStartsAt(s, i) then Some(i)
    else FirstTitleStart(s, i + 1)
  }

  /** `i` is where `re.search` finds the title: the leftmost match position. */
  ghost predicate IsFirstTitleStart(s: string, i: nat) {
    TitleStartsAt(s, i) && forall k: nat :: k < i ==> !TitleStartsAt(s, k)
  }

  lemma StripOfLine(m: string)
    requires m != [] && !IsSpace(m[0])
    requires forall k :: 0 <= k < |m| ==> m[k] != '\n'
    ensures Strip(m) != [] && Strip(m)[0] == m[0]
    ensures forall k :: 0 <= k < |Strip(m)| ==> Strip(m)[k] != '\n'
  {
    var r := Strip(m);
    StripSpec(m);
    var a: nat :| Trims(m, r, a);
    assert !IsSpace(m[0]);
    assert a == 0;
    assert forall k :: 0 <= k < |r| ==> r[k] == m[a + k];
  }

  /** The title `re.search(...).group(0).strip()` yields on one page, or None. */
  function FindTitle(page: string): (t: Option<string>)
    ensures t.None? <==> forall i: nat :: !TitleStartsAt(page, i)
    ensures t.Some? ==> exists i: nat :: IsFirstTitleStart(page, i) && t.value == Strip(page[i..LineEnd(page, i + 1)])
    ensures t.Some? ==> t.value != [] && IsAsciiAlnum(t.value[0])
    ensures t.Some? ==> forall k :: 0 <= k < |t.value| ==> t.value[k] != '\n'
  {
    match FirstTitleStart(page, 0)
    case None => None
    case Some(i) =>
      var m := page[i..LineEnd(page, i + 1)];
      StripOfLine(m);
      assert IsFirstTitleStart(page, i);
      Some(Strip(m))
  }

  // ---------------------------------------------------------------------------
  // Citation markers: re.sub(r'\[\d+\]', '', text)
  // ---------------------------------------------------------------------------

  /** `s[i..j]` is a citation marker: `[`, one or more digits, `]`. */
  ghost predicate MarkerSpan(s: string, i: nat, j: nat) {
    && i + 3 <= j <= |s|
    && s[i] == '['
    && s[j - 1] == ']'
    && forall k :: i < k < j - 1 ==> IsDigit(s[k])
  }

  ghost predicate HasMarker(s: string) {
    exists i: nat, j: nat :: MarkerSpan(s, i, j)
  }

  function DigitRun(s: string): (n: nat)
    ensures n <= |s|
    ensures forall k :: 0 <= k < n ==> IsDigit(s[k])
    ensures n < |s| ==> !IsDigit(s[n])
  {
    if s == [] || !IsDigit(s[0]) then 0 else 1 + DigitRun(s[1..])
  }

  lemma NoMarkerAtStart(s: string, d: nat)
    requires s != [] && d == DigitRun(s[1..])
    requires d == 0 || 1 + d == |s| || s[1 + d] != ']'
    ensures forall j: nat :: !MarkerSpan(s, 0, j)
  {
    forall j: nat ensures !MarkerSpan(s, 0, j) {
      if 3 <= j <= |s| {
        assert s[1..][j - 2] == s[j - 1];
        if 1 + d < |s| {
          assert s[1..][d] == s[1 + d];
        }
      }
    }
  }

  /** The length of the marker at the start of `s`, or 0 when `s` does not start with one.
      Since `\d+` is greedy and `]` is not a digit, the match is unique. */
  function MarkerLength(s: string): (n: nat)
    ensures n > 0 ==> MarkerSpan(s, 0, n)
    ensures n == 0 ==> forall j: nat :: !MarkerSpan(s, 0, j)
  {
    if s == [] || s[0] != '[' then 0
    else
      var d := DigitRun(s[1..]);
      if d > 0 && 1 + d < |s| && s[1 + d] == ']' then
        assert forall k :: 0 < k < d + 1 ==> s[k] == s[1..][k - 1];
        d + 2
      else
        NoMarkerAtStart(s, d);
        0
  }

  /** Deletes the leftmost non-overlapping citation markers, scanning left to right. */
  function RemoveCitations(s: string): (r: string)
    ensures |r| <= |s|
    decreases |s|
  {
    if s == [] then []
    else
      var m := MarkerLength(s);
      if m > 0 then RemoveCitations(s[m..]) else [s[0]] + RemoveCitations(s[1..])
  }

  lemma MarkerShift(s: string)
    requires s != []
    ensures forall i: nat, j: nat :: MarkerSpan(s[1..], i, j) ==> MarkerSpan(s, i + 1, j + 1)
    ensures forall i: nat, j: nat :: 0 < i && MarkerSpan(s, i, j) ==> MarkerSpan(s[1..], i - 1, j - 1)
  {
  }

  /** Citation removal only deletes characters: the rest stays, in order. */
  lemma {:induction false} CitationRemovalKeepsOrder(s: string)
    ensures IsSubseq(RemoveCitations(s), s)
    decreases |s|
  {
    if s != [] {
      var m := MarkerLength(s);
      if m > 0 {
        CitationRemovalKeepsOrder(s[m..]);
        SubseqDrop(s, m);
        SubseqTrans(RemoveCitations(s[m..]), s[m..], s);
      } else {
        CitationRemovalKeepsOrder(s[1..]);
        SubseqCons(s[0], RemoveCitations(s[1..]), s[1..]);
        assert [s[0]] + s[1..] == s;
      }
    }
  }

  lemma {:induction false} NoMarkerUnchanged(s: string)
    requires !HasMarker(s)
    ensures RemoveCitations(s) == s
    decreases |s|
  {
    if s != [] {
      MarkerShift(s);
      assert MarkerLength(s) == 0;
      NoMarkerUnchanged(s[1..]);
    }
  }

  /** At most one marker starts at a position: its `]` is the first non-digit after `[`. */
  lemma MarkerEndUnique(s: string, j: nat, m: nat)
    requires MarkerSpan(s, 0, j) && MarkerSpan(s, 0, m)
    ensures j == m
  {
  }

  lemma MarkerSpanDrop(s: string, j: nat, m: nat)
    requires j <= |s|
    ensures MarkerSpan(s[j..], 0, m) <==> MarkerSpan(s, j, j + m)
  {
    if j + m <= |s| {
      assert forall k :: 0 <= k < m ==> s[j..][k] == s[j + k];
    }
  }

  lemma DropLeadingMarker(u: string, n: nat)
    requires 0 < n == MarkerLength(u)
    ensures RemoveCitations(u) == RemoveCitations(u[n..])
  {
  }

  /** A marker at `j` is the one `MarkerLength` finds at the start of `s[j..]`. */
  lemma MarkerLengthAt(s: string, j: nat, e: nat)
    requires MarkerSpan(s, j, e)
    ensures MarkerLength(s[j..]) == e - j
  {
    MarkerSpanDrop(s, j, e - j);
    var n := MarkerLength(s[j..]);
    if n != 0 {
      MarkerEndUnique(s[j..], n, e - j);
    }
  }

  /** A marker at `j`, ending at `e`, is dropped as a whole. */
  lemma RemoveMarkerAt(s: string, j: nat, e: nat)
    requires j < e <= |s| && MarkerLength(s[j..]) == e - j
    ensures RemoveCitations(s[j..]) == RemoveCitations(s[e..])
  {
    DropLeadingMarker(s[j..], e - j);
    DropDrop(s, j, e);
  }

  /** A character where no marker starts is kept. */
  lemma KeepCharAt(s: string, j: nat)
    requires j < |s|
    requires forall m: nat :: !MarkerSpan(s, j, m)
    ensures RemoveCitations(s[j..]) == [s[j]] + RemoveCitations(s[j + 1..])
  {
    var n := MarkerLength(s[j..]);
    MarkerSpanDrop(s, j, n);
    assert !MarkerSpan(s, j, j + n);
    assert s[j..][1..] == s[j + 1..];
  }

  /** From `j` up to the leftmost marker `s[i..e]`, `re.sub` copies the text. */
  lemma {:induction false} RemoveCitationsUpToMarker(s: string, j: nat, i: nat, e: nat)
    requires j <= i && MarkerSpan(s, i, e)
    requires forall k: nat, m: nat :: j <= k < i ==> !MarkerSpan(s, k, m)
    ensures RemoveCitations(s[j..]) == s[j..i] + RemoveCitations(s[e..])
    decreases i - j
  {
    if j == i {
      MarkerLengthAt(s, i, e);
      RemoveMarkerAt(s, i, e);
      assert s[j..i] == [];
    } else {
      KeepCharAt(s, j);
      RemoveCitationsUpToMarker(s, j + 1, i, e);
      ConsSlice(s, j, i, RemoveCitations(s[e..]));
    }
  }

  /** `re.sub` copies the text before the leftmost marker, deletes that marker and
      carries on after it. With `NoMarkerUnchanged` this fixes the result on every text:
      exactly the leftmost non-overlapping markers go, every other character stays. */
  lemma RemoveCitationsAtFirstMarker(s: string, i: nat, j: nat)
    requires MarkerSpan(s, i, j)
    requires forall k: nat, m: nat :: k < i ==> !MarkerSpan(s, k, m)
    ensures RemoveCitations(s) == s[..i] + RemoveCitations(s[j..])
  {
    RemoveCitationsUpToMarker(s, 0, i, j);
    assert s[0..] == s && s[0..i] == s[..i];
  }

  lemma {:induction false} MarkerShortens(s: string, i: nat, j: nat)
    requires MarkerSpan(s, i, j)
    ensures |RemoveCitations(s)| < |s|
    decreases |s|
  {
    MarkerShift(s);
    if MarkerLength(s) == 0 {
      MarkerShortens(s[1..], i - 1, j - 1);
    }
  }

  /** The text is returned unchanged exactly when it holds no citation marker. */
  lemma CitationRemovalUnchangedIff(s: string)
    ensures RemoveCitations(s) == s <==> !HasMarker(s)
  {
    if HasMarker(s) {
      var i: nat, j: nat :| MarkerSpan(s, i, j);
      MarkerShortens(s, i, j);
    } else {
      NoMarkerUnchanged(s);
    }
  }

  /** Removal can leave a marker behind: the inner `[1]` goes and `[2]` is formed. */
  lemma NestedMarkerSurvives()
    ensures RemoveCitations("[[1]2]") == "[2]"
    ensures HasMarker(RemoveCitations("[[1]2]"))
  {
    var s := "[[1]2]";
    assert MarkerLength(s) == 0 by {
      assert DigitRun(s[1..]) == 0;
    }
    assert s[1..] == "[1]2]";
    assert MarkerLength("[1]2]") == 3 by {
      assert DigitRun("1]2]") == 1 by {
        assert "1]2]"[1..] == "]2]";
      }
    }
    assert "[1]2]"[3..] == "2]";
    assert RemoveCitations("2]") == "2]" by {
      assert "2]"[1..] == "]";
      assert RemoveCitations("]") == "]" by {
        assert "]"[1..] == [];
      }
    }
    assert MarkerSpan("[2]", 0, 3);
  }

  // ---------------------------------------------------------------------------
  // Bibliography: re.search(r"\b(references|REFERENCES)\b", text, re.IGNORECASE)
  // ---------------------------------------------------------------------------

  const Keyword: string := "references"

  /** The word "references", in any ASCII casing, stands at `i` as a whole word. */
  predicate ReferencesAt(s: string, i: nat) {
    && i + |Keyword| <= |s|
    && (forall k :: 0 <= k < |Keyword| ==> LowerAscii(s[i + k]) == Keyword[k])
    && (i == 0 || !IsWordChar(s[i - 1]))
    && (i + |Keyword| == |s| || !IsWordChar(s[i + |Keyword|]))
  }

  /** The leftmost position, from `i` on, of a whole-word "references". */
  function FindReferences(s: string, i: nat): (r: Option<nat>)
    requires i <= |s|
    ensures r.Some? ==> i <= r.value && ReferencesAt(s, r.value)
    ensures r.Some? ==> forall k: nat :: i <= k < r.value ==> !ReferencesAt(s, k)
    ensures r.None? ==> forall k: nat :: i <= k ==> !ReferencesAt(s, k)
    decreases |s| - i
  {
    if i == |s| then None
    else if ReferencesAt(s, i) then Some(i)
    else FindReferences(s, i + 1)
  }

  /** `text[:m.start()]` when the heading is found, `text` otherwise. */
  function CutAtReferences(s: string): (r: string)
    ensures IsPrefix(r, s)
    ensures || (r == s && forall k: nat :: !ReferencesAt(s, k))
            || (ReferencesAt(s, |r|) && forall k: nat :: k < |r| ==> !ReferencesAt(s, k))
  {
    match FindReferences(s, 0)
    case None => s
    case Some(p) => s[..p]
  }

  /** A whole-word "references" in a prefix of `s` is one of `s`, unless it ends
      exactly where the prefix ends and `s` goes on with a word character. */
  lemma PrefixReferences(s: string, p: nat)
    requires p <= |s|
    ensures forall k: nat :: ReferencesAt(s[..p], k) ==>
      ReferencesAt(s, k) || (k + |Keyword| == p && IsWordChar(s[p - 1]))
  {
    forall k: nat | ReferencesAt(s[..p], k)
      ensures ReferencesAt(s, k) || (k + |Keyword| == p && IsWordChar(s[p - 1]))
    {
      if k + |Keyword| == p {
        assert LowerAscii(s[..p][k + 9]) == Keyword[9] == 's';
        assert s[..p][k + 9] == s[p - 1];
      }
    }
  }

  /** A whole-word "references" in the stripped text is one of the unstripped text. */
  lemma StripReferences(t: string, r: string, a: nat)
    requires Trims(t, r, a)
    ensures forall k: nat :: ReferencesAt(r, k) ==> ReferencesAt(t, a + k)
  {
    forall k: nat | ReferencesAt(r, k) ensures ReferencesAt(t, a + k) {
      assert forall m :: 0 <= m < |r| ==> r[m] == t[a + m];
    }
  }

  /** After the cut, no whole-word "references" is left. */
  lemma CutLeavesNoReferences(s: string)
    ensures forall k: nat :: !ReferencesAt(CutAtReferences(s), k)
  {
    var r := CutAtReferences(s);
    if r != s || exists k: nat :: ReferencesAt(s, k) {
      PrefixReferences(s, |r|);
      assert r == s[..|r|];
    }
  }

  // ---------------------------------------------------------------------------
  // The whole extraction
  // ---------------------------------------------------------------------------

  /** The page texts appended in page order. */
  function Concat(pages: seq<string>): string {
    if pages == [] then [] else Concat(pages[..|pages| - 1]) + pages[|pages| - 1]
  }

  /** The cleaned text `extract_cleaned_text_from_pdf` returns. */
  function CleanedText(pages: seq<string>): string {
    Strip(CutAtReferences(RemoveCitations(Concat(pages))))
  }

  /** The title `extract_cleaned_text_from_pdf` returns: only page 0 is searched. */
  function PdfTitle(pages: seq<string>): Option<string> {
    if pages == [] then None else FindTitle(pages[0])
  }

  /** Cleaning only deletes characters of the page texts, and what it returns has
      no whole-word "references" and no whitespace at either end. */
  lemma CleanedTextProperties(pages: seq<string>)
    ensures IsSubseq(CleanedText(pages), Concat(pages))
    ensures forall k: nat :: !ReferencesAt(CleanedText(pages), k)
    ensures CleanedText(pages) != [] ==>
      !IsSpace(CleanedText(pages)[0]) && !IsSpace(CleanedText(pages)[|CleanedText(pages)| - 1])
  {
    var raw := Concat(pages);
    var removed := RemoveCitations(raw);
    var cut := CutAtReferences(removed);
    var text := Strip(cut);
    StripSpec(cut);
    var a: nat :| Trims(cut, text, a);
    assert IsSubseq(cut, raw) by {
      CitationRemovalKeepsOrder(raw);
      SubseqTake(removed, |cut|);
      assert removed[..|cut|] == cut;
      SubseqTrans(cut, removed, raw);
    }
    assert IsSubseq(text, cut) by {
      SubseqSlice(cut, a, a + |text|);
      assert cut[a..a + |text|] == text;
    }
    SubseqTrans(text, cut, raw);
    assert forall k: nat :: !ReferencesAt(text, k) by {
      CutLeavesNoReferences(removed);
      StripReferences(cut, text, a);
    }
  }

  /** The page loop of `extract_cleaned_text_from_pdf`: appends each page's text
      and takes the title from page 0 alone, then cleans the whole text. */
  method ExtractCleanedText(pages: seq<string>) returns (text: string, title: Option<string>)
    ensures text == CleanedText(pages)
    ensures title == PdfTitle(pages)
  {
    var raw := "";
    title := None;
    var pageNum := 0;
    while pageNum < |pages|
      invariant 0 <= pageNum <= |pages|
      invariant raw == Concat(pages[..pageNum])
      invariant title == if pageNum == 0 then None else FindTitle(pages[0])
    {
      var pageText := pages[pageNum];
      raw := raw + pageText;
      if pageNum == 0 {
        var titleMatch := FindTitle(pageText);
        if titleMatch.Some? {
          title := titleMatch;
        }
      }
      assert pages[..pageNum + 1][..pageNum] == pages[..pageNum];
      pageNum := pageNum + 1;
    }
    assert pages[..|pages|] == pages;
    raw := RemoveCitations(raw);
    raw := CutAtReferences(raw);
    text := Strip(raw);
  }
}
