/**
 * The pieces of Python's `str` behaviour the scripts rely on: character
 * classes, `strip()`, `split()`, `' '.join(...)`, `in` and `replace(...)`,
 * together with subsequences, which say that an operation only deletes.
 */
module Strings {

  // ---------------------------------------------------------------------------
  // Character classes
  // ---------------------------------------------------------------------------

  /** Python's `str.isspace()`: the separators of `split()` and what `strip()` removes. */
  predicate IsSpace(c: char) {
    var n := c as int;
    (9 <= n <= 13) || (28 <= n <= 32) || n == 0x85 || n == 0xA0 || n == 0x1680
    || (0x2000 <= n <= 0x200A) || n == 0x2028 || n == 0x2029 || n == 0x202F
    || n == 0x205F || n == 0x3000
  }

  /** The regex class `[A-Za-z0-9]`. */
  predicate IsAsciiAlnum(c: char) {
    ('a' <= c <= 'z') || ('A' <= c <= 'Z') || ('0' <= c <= '9')
  }

  /** A word character for `\b`: ASCII letters, digits and underscore. */
  predicate IsWordChar(c: char) {
    IsAsciiAlnum(c) || c == '_'
  }

  /** The regex class `\d`, over ASCII digits. */
  predicate IsDigit(c: char) {
    '0' <= c <= '9'
  }

  /** Case folding used by `re.IGNORECASE` on ASCII letters. */
  function LowerAscii(c: char): char {
    if 'A' <= c <= 'Z' then (c as int + 32) as char else c
  }

  predicate IsPrefix<T(==)>(a: seq<T>, b: seq<T>) {
    |a| <= |b| && b[..|a|] == a
  }

  lemma PrefixOfAppend<T>(a: seq<T>, b: seq<T>, c: seq<T>)
    requires IsPrefix(a, b)
    ensures IsPrefix(a, b + c)
  {
    assert (b + c)[..|a|] == b[..|a|];
  }

  /** Python's `s.endswith(suffix)`. */
  predicate EndsWith(s: string, suffix: string) {
    |suffix| <= |s| && s[|s| - |suffix|..] == suffix
  }

  // ---------------------------------------------------------------------------
  // strip()
  // ---------------------------------------------------------------------------

  /** `s.lstrip()`. */
  function TrimStart(s: string): (r: string)
    ensures |r| <= |s|
    decreases |s|
  {
    if s != [] && IsSpace(s[0]) then TrimStart(s[1..]) else s
  }

  /** `s.rstrip()`. */
  function TrimEnd(s: string): (r: string)
    ensures |r| <= |s|
    decreases |s|
  {
    if s != [] && IsSpace(s[|s| - 1]) then TrimEnd(s[..|s| - 1]) else s
  }

  lemma {:induction false} TrimStartSpec(s: string)
    ensures TrimStart(s) == s[|s| - |TrimStart(s)|..]
    ensures forall k :: 0 <= k < |s| - |TrimStart(s)| ==> IsSpace(s[k])
    ensures TrimStart(s) == [] || !IsSpace(TrimStart(s)[0])
    decreases |s|
  {
    if s != [] && IsSpace(s[0]) {
      TrimStartSpec(s[1..]);
      assert s[1..][|s| - 1 - |TrimStart(s)|..] == s[|s| - |TrimStart(s)|..];
    }
  }

  lemma {:induction false} TrimEndSpec(s: string)
    ensures TrimEnd(s) == s[..|TrimEnd(s)|]
    ensures forall k :: |TrimEnd(s)| <= k < |s| ==> IsSpace(s[k])
    ensures TrimEnd(s) == [] || !IsSpace(TrimEnd(s)[|TrimEnd(s)| - 1])
    decreases |s|
  {
    if s != [] && IsSpace(s[|s| - 1]) {
      TrimEndSpec(s[..|s| - 1]);
    }
  }

  /** `r` is `s[a..a+|r|]` and everything of `s` around it is whitespace. */
  ghost predicate Trims(s: string, r: string, a: nat) {
    && a + |r| <= |s|
    && s[a..a + |r|] == r
    && (forall k :: 0 <= k < a ==> IsSpace(s[k]))
    && (forall k :: a + |r| <= k < |s| ==> IsSpace(s[k]))
  }

  /** Python's `s.strip()`. */
  function Strip(s: string): string {
    TrimEnd(TrimStart(s))
  }

  /** `strip()` removes exactly the whitespace at both ends: what is left is a slice of
      `s` with only whitespace around it, and it neither starts nor ends with whitespace. */
  lemma StripSpec(s: string)
    ensures exists a: nat :: Trims(s, Strip(s), a)
    ensures Strip(s) == [] || (!IsSpace(Strip(s)[0]) && !IsSpace(Strip(s)[|Strip(s)| - 1]))
    ensures Strip(s) == [] <==> forall k :: 0 <= k < |s| ==> IsSpace(s[k])
  {
    var t := TrimStart(s);
    var a := |s| - |t|;
    TrimStartSpec(s);
    TrimEndSpec(t);
    var r := Strip(s);
    assert s[a..a + |r|] == r;
    assert Trims(s, r, a);
    if r != [] {
      assert r[0] == t[0];
    }
  }

  // ---------------------------------------------------------------------------
  // split() and ' '.join(...)
  // ---------------------------------------------------------------------------

  /** A non-empty run of non-whitespace: what `split()` yields. */
  predicate IsWord(w: string) {
    w != [] && forall k :: 0 <= k < |w| ==> !IsSpace(w[k])
  }

  function WordLength(s: string): (n: nat)
    ensures n <= |s|
    ensures forall k :: 0 <= k < n ==> !IsSpace(s[k])
    ensures n < |s| ==> IsSpace(s[n])
  {
    if s == [] || IsSpace(s[0]) then 0 else 1 + WordLength(s[1..])
  }

  /** Python's `s.split()` with no separator. */
  function Words(s: string): (ws: seq<string>)
    ensures forall i :: 0 <= i < |ws| ==> IsWord(ws[i])
    decreases |s|
  {
    if s == [] then []
    else if IsSpace(s[0]) then Words(s[1..])
    else
      var n := WordLength(s);
      [s[..n]] + Words(s[n..])
  }

  /** Python's `sep.join(parts)`. */
  function JoinWith(parts: seq<string>, sep: string): string {
    if |parts| == 0 then []
    else if |parts| == 1 then parts[0]
    else parts[0] + sep + JoinWith(parts[1..], sep)
  }

  /** `split()` skips a whitespace character in front of the text, whichever it is. */
  lemma WordsSkipSpace(c: char, t: string)
    requires IsSpace(c)
    ensures Words([c] + t) == Words(t)
  {
    assert ([c] + t)[1..] == t;
  }

  /** A word followed by nothing or by whitespace is one run of non-whitespace. */
  lemma {:induction false} WordLengthOfWord(w: string, t: string)
    requires IsWord(w) && (t == [] || IsSpace(t[0]))
    ensures WordLength(w + t) == |w|
    decreases |w|
  {
    var s := w + t;
    assert s[0] == w[0] && s[1..] == w[1..] + t;
    if |w| == 1 {
      assert w[1..] + t == t;
    } else {
      WordLengthOfWord(w[1..], t);
    }
  }

  /** A word followed by whitespace is the first piece. */
  lemma WordFirst(w: string, u: string)
    requires IsWord(w) && u != [] && IsSpace(u[0])
    ensures Words(w + u) == [w] + Words(u)
  {
    var s := w + u;
    WordLengthOfWord(w, u);
    assert s[0] == w[0];
    assert s[..|w|] == w && s[|w|..] == u;
  }

  /** A word on its own is the only piece. */
  lemma WordAlone(w: string)
    requires IsWord(w)
    ensures Words(w) == [w]
  {
    assert w + [] == w;
    WordLengthOfWord(w, []);
    assert w[..|w|] == w && w[|w|..] == [];
  }

  /** A word ended by any whitespace character is the first piece, and `split()` carries
      on after that character; a word on its own is the only piece. With `WordsSkipSpace`
      and `Words([]) == []` this fixes the pieces of every text: its maximal runs of
      non-whitespace, in order, whatever whitespace separates them. */
  lemma WordThenSpace(w: string, c: char, t: string)
    requires IsWord(w) && IsSpace(c)
    ensures Words(w + [c] + t) == [w] + Words(t)
    ensures Words(w) == [w]
  {
    assert w + [c] + t == w + ([c] + t);
    WordFirst(w, [c] + t);
    WordsSkipSpace(c, t);
    WordAlone(w);
  }

  /** Joining words with single spaces and splitting again gives the words back. */
  lemma {:induction false} SplitJoinWords(ws: seq<string>)
    requires forall i :: 0 <= i < |ws| ==> IsWord(ws[i])
    ensures Words(JoinWith(ws, " ")) == ws
  {
    if |ws| == 1 {
      WordThenSpace(ws[0], ' ', "");
    } else if |ws| > 1 {
      SplitJoinWords(ws[1..]);
      WordThenSpace(ws[0], ' ', JoinWith(ws[1..], " "));
      assert [ws[0]] + ws[1..] == ws;
    }
  }

  // ---------------------------------------------------------------------------
  // `t in s` and s.replace(p, q)
  // ---------------------------------------------------------------------------

  predicate OccursAt(s: string, t: string, i: nat) {
    i + |t| <= |s| && s[i..i + |t|] == t
  }

  /** Python's substring test `t in s`. */
  function Contains(s: string, t: string): bool
    decreases |s|
  {
    |t| <= |s| && (s[..|t|] == t || Contains(s[1..], t))
  }

  lemma {:induction false} ContainsIff(s: string, t: string)
    ensures Contains(s, t) <==> exists i: nat :: OccursAt(s, t, i)
    decreases |s|
  {
    if |t| <= |s| {
      if s[..|t|] == t {
        assert OccursAt(s, t, 0);
      } else {
        ContainsIff(s[1..], t);
        forall i: nat | 0 < i ensures OccursAt(s, t, i) <==> OccursAt(s[1..], t, i - 1) {
          if i + |t| <= |s| {
            assert s[1..][i - 1..i - 1 + |t|] == s[i..i + |t|];
          }
        }
        assert !OccursAt(s, t, 0);
        if Contains(s[1..], t) {
          var i: nat :| OccursAt(s[1..], t, i);
          assert OccursAt(s, t, i + 1);
        }
      }
    }
  }

  /** Python's `s.replace(p, q)`: leftmost, non-overlapping occurrences of `p` become `q`. */
  function ReplaceAll(s: string, p: string, q: string): (r: string)
    requires p != []
    ensures |p| == |q| ==> |r| == |s|
    decreases |s|
  {
    if |s| < |p| then s
    else if s[..|p|] == p then q + ReplaceAll(s[|p|..], p, q)
    else [s[0]] + ReplaceAll(s[1..], p, q)
  }

  /** Without an occurrence of `p` there is nothing to replace. */
  lemma {:induction false} ReplaceWithoutOccurrence(s: string, p: string, q: string)
    requires p != []
    requires !Contains(s, p)
    ensures ReplaceAll(s, p, q) == s
    decreases |s|
  {
    if |p| <= |s| {
      ReplaceWithoutOccurrence(s[1..], p, q);
    }
  }

  /** Python's `s.split(p)`: the pieces between the occurrences `replace` rewrites. */
  function SplitOn(s: string, p: string): (parts: seq<string>)
    requires p != []
    ensures |parts| >= 1
    ensures IsPrefix(parts[0], s)
    decreases |s|
  {
    if |s| < |p| then [s]
    else if s[..|p|] == p then [[]] + SplitOn(s[|p|..], p)
    else
      var rest := SplitOn(s[1..], p);
      [[s[0]] + rest[0]] + rest[1..]
  }

  lemma JoinGrowsHead(c: char, parts: seq<string>, sep: string)
    requires |parts| >= 1
    ensures JoinWith([[c] + parts[0]] + parts[1..], sep) == [c] + JoinWith(parts, sep)
  {
    var ps := [[c] + parts[0]] + parts[1..];
    if |parts| > 1 {
      assert ps[1..] == parts[1..];
    }
  }

  lemma JoinAfterEmpty(parts: seq<string>, sep: string)
    requires |parts| >= 1
    ensures JoinWith([[]] + parts, sep) == sep + JoinWith(parts, sep)
  {
    assert ([[]] + parts)[1..] == parts;
  }

  /** Splitting on `p` and joining with `p` gives the string back. */
  lemma {:induction false} SplitJoinRoundTrip(s: string, p: string)
    requires p != []
    ensures JoinWith(SplitOn(s, p), p) == s
    decreases |s|
  {
    if |s| < |p| {
    } else if s[..|p|] == p {
      SplitJoinRoundTrip(s[|p|..], p);
      JoinAfterEmpty(SplitOn(s[|p|..], p), p);
      assert s == p + s[|p|..];
    } else {
      var rest := SplitOn(s[1..], p);
      SplitJoinRoundTrip(s[1..], p);
      JoinGrowsHead(s[0], rest, p);
      assert s == [s[0]] + s[1..];
    }
  }

  /** `replace(p, q)` is `q.join(s.split(p))`. */
  lemma {:induction false} ReplaceIsSplitJoin(s: string, p: string, q: string)
    requires p != []
    ensures ReplaceAll(s, p, q) == JoinWith(SplitOn(s, p), q)
    decreases |s|
  {
    if |s| < |p| {
    } else if s[..|p|] == p {
      ReplaceIsSplitJoin(s[|p|..], p, q);
      JoinAfterEmpty(SplitOn(s[|p|..], p), q);
    } else {
      var rest := SplitOn(s[1..], p);
      ReplaceIsSplitJoin(s[1..], p, q);
      JoinGrowsHead(s[0], rest, q);
    }
  }

  lemma ReplaceSkipsHead(s: string, p: string, q: string)
    requires p != [] && |p| <= |s| && !OccursAt(s, p, 0)
    ensures ReplaceAll(s, p, q) == [s[0]] + ReplaceAll(s[1..], p, q)
  {
  }

  /** An occurrence at `j` is replaced as a whole. */
  lemma ReplaceAtOccurrence(s: string, j: nat, p: string, q: string)
    requires p != [] && OccursAt(s, p, j)
    ensures ReplaceAll(s[j..], p, q) == q + ReplaceAll(s[j + |p|..], p, q)
  {
    assert s[j..][..|p|] == p;
    assert s[j..][|p|..] == s[j + |p|..];
  }

  /** A character where no occurrence starts is copied. */
  lemma ReplaceKeepsCharAt(s: string, j: nat, p: string, q: string)
    requires p != [] && j + |p| <= |s| && !OccursAt(s, p, j)
    ensures ReplaceAll(s[j..], p, q) == [s[j]] + ReplaceAll(s[j + 1..], p, q)
  {
    assert s[j..][..|p|] == s[j..j + |p|];
    assert s[j..][1..] == s[j + 1..];
  }

  /** From `j` up to the first occurrence at `k`, `replace` copies the text. */
  lemma {:induction false} ReplaceUpToOccurrence(s: string, j: nat, k: nat, p: string, q: string)
    requires p != [] && j <= k
    requires OccursAt(s, p, k)
    requires forall i: nat :: j <= i < k ==> !OccursAt(s, p, i)
    ensures ReplaceAll(s[j..], p, q) == s[j..k] + q + ReplaceAll(s[k + |p|..], p, q)
    decreases k - j
  {
    if j == k {
      ReplaceAtOccurrence(s, j, p, q);
      assert s[j..k] == [];
    } else {
      ReplaceKeepsCharAt(s, j, p, q);
      ReplaceUpToOccurrence(s, j + 1, k, p, q);
      ConsSliceConcat(s, j, k, q, ReplaceAll(s[k + |p|..], p, q));
    }
  }

  /** Up to the first occurrence of `p`, at `k`, `replace` copies the string; it
      writes `q` for that occurrence and carries on after it. */
  lemma ReplaceFirstOccurrence(s: string, k: nat, p: string, q: string)
    requires p != []
    requires OccursAt(s, p, k)
    requires forall i: nat :: i < k ==> !OccursAt(s, p, i)
    ensures ReplaceAll(s, p, q) == s[..k] + q + ReplaceAll(s[k + |p|..], p, q)
  {
    ReplaceUpToOccurrence(s, 0, k, p, q);
    assert s[0..] == s && s[0..k] == s[..k];
  }

  /** No piece between two replaced occurrences contains the pattern. */
  lemma {:induction false} PiecesAvoidPattern(s: string, p: string)
    requires p != []
    ensures forall i :: 0 <= i < |SplitOn(s, p)| ==> !Contains(SplitOn(s, p)[i], p)
    decreases |s|
  {
    var parts := SplitOn(s, p);
    if |s| < |p| {
      assert !Contains(s, p);
    } else if s[..|p|] == p {
      PiecesAvoidPattern(s[|p|..], p);
      assert parts[1..] == SplitOn(s[|p|..], p);
    } else {
      var rest := SplitOn(s[1..], p);
      PiecesAvoidPattern(s[1..], p);
      var head := [s[0]] + rest[0];
      assert head[1..] == rest[0];
      if |p| <= |head| {
        assert head[..|p|] == s[..|p|];
      }
      assert !Contains(head, p);
      forall i | 1 <= i < |parts| ensures !Contains(parts[i], p) {
        assert parts[i] == rest[i];
      }
    }
  }

  lemma DropDrop<T>(s: seq<T>, j: nat, e: nat)
    requires j <= e <= |s|
    ensures s[j..][e - j..] == s[e..]
  {
  }

  /** `s[j]` in front of `s[j+1..i]` is `s[j..i]`, with anything after it. */
  lemma ConsSlice<T>(s: seq<T>, j: nat, i: nat, r: seq<T>)
    requires j < i <= |s|
    ensures [s[j]] + (s[j + 1..i] + r) == s[j..i] + r
  {
    assert [s[j]] + s[j + 1..i] == s[j..i];
  }

  lemma ConsSliceConcat<T>(s: seq<T>, j: nat, i: nat, b: seq<T>, c: seq<T>)
    requires j < i <= |s|
    ensures [s[j]] + (s[j + 1..i] + b + c) == s[j..i] + b + c
  {
    assert [s[j]] + s[j + 1..i] == s[j..i];
  }

  // ---------------------------------------------------------------------------
  // Subsequences
  // ---------------------------------------------------------------------------

  /** `a` is `b` with some elements deleted, the rest kept in order. */
  ghost predicate IsSubseq<T>(a: seq<T>, b: seq<T>)
    decreases |b|
  {
    a == [] || (b != [] && ((a[0] == b[0] && IsSubseq(a[1..], b[1..])) || IsSubseq(a, b[1..])))
  }

  lemma {:induction false} SubseqLength<T>(a: seq<T>, b: seq<T>)
    requires IsSubseq(a, b)
    ensures |a| <= |b|
    decreases |b|
  {
    if a != [] {
      if a[0] == b[0] && IsSubseq(a[1..], b[1..]) {
        SubseqLength(a[1..], b[1..]);
      } else {
        SubseqLength(a, b[1..]);
      }
    }
  }

  lemma {:induction false} SubseqRefl<T>(a: seq<T>)
    ensures IsSubseq(a, a)
    decreases |a|
  {
    if a != [] {
      SubseqRefl(a[1..]);
    }
  }

  lemma {:induction false} SubseqTrans<T>(a: seq<T>, b: seq<T>, c: seq<T>)
    requires IsSubseq(a, b) && IsSubseq(b, c)
    ensures IsSubseq(a, c)
    decreases |c|
  {
    if a != [] {
      if b[0] == c[0] && IsSubseq(b[1..], c[1..]) {
        if a[0] == b[0] && IsSubseq(a[1..], b[1..]) {
          SubseqTrans(a[1..], b[1..], c[1..]);
        } else {
          SubseqTrans(a, b[1..], c[1..]);
        }
      } else {
        SubseqTrans(a, b, c[1..]);
      }
    }
  }

  lemma {:induction false} SubseqDrop<T>(s: seq<T>, i: nat)
    requires i <= |s|
    ensures IsSubseq(s[i..], s)
    decreases i
  {
    if i == 0 {
      SubseqRefl(s);
    } else {
      SubseqDrop(s[1..], i - 1);
      assert s[1..][i - 1..] == s[i..];
    }
  }

  lemma {:induction false} SubseqTake<T>(s: seq<T>, n: nat)
    requires n <= |s|
    ensures IsSubseq(s[..n], s)
    decreases n
  {
    if n > 0 {
      SubseqTake(s[1..], n - 1);
      assert s[..n][1..] == s[1..][..n - 1];
    }
  }

  lemma SubseqSlice<T>(s: seq<T>, i: nat, j: nat)
    requires i <= j <= |s|
    ensures IsSubseq(s[i..j], s)
  {
    SubseqTake(s[i..], j - i);
    assert s[i..][..j - i] == s[i..j];
    SubseqDrop(s, i);
    SubseqTrans(s[i..j], s[i..], s);
  }

  lemma SubseqCons<T>(x: T, a: seq<T>, b: seq<T>)
    requires IsSubseq(a, b)
    ensures IsSubseq([x] + a, [x] + b)
  {
    assert ([x] + a)[1..] == a && ([x] + b)[1..] == b;
  }

  lemma {:induction false} SubseqExtend<T>(a: seq<T>, b: seq<T>, x: T)
    requires IsSubseq(a, b)
    ensures IsSubseq(a, b + [x])
    decreases |b|
  {
    if a != [] {
      assert (b + [x])[1..] == b[1..] + [x];
      if a[0] == b[0] && IsSubseq(a[1..], b[1..]) {
        SubseqExtend(a[1..], b[1..], x);
      } else {
        SubseqExtend(a, b[1..], x);
      }
    }
  }

  lemma {:induction false} SubseqAppend<T>(a: seq<T>, b: seq<T>, x: T)
    requires IsSubseq(a, b)
    ensures IsSubseq(a + [x], b + [x])
    decreases |b|
  {
    if b == [] {
      assert a == [];
      assert IsSubseq([x][1..], [x][1..]);
    } else {
      assert (b + [x])[1..] == b[1..] + [x];
      if a == [] {
        SubseqAppend(a, b[1..], x);
      } else if a[0] == b[0] && IsSubseq(a[1..], b[1..]) {
        SubseqAppend(a[1..], b[1..], x);
        assert (a + [x])[1..] == a[1..] + [x];
      } else {
        SubseqAppend(a, b[1..], x);
      }
    }
  }
}
