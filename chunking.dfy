/**
 * The chunking of `process_and_summarize_sections_with_gpt`: the cleaned text
 * is split on whitespace and the words are cut into consecutive windows of
 * 3000, each rejoined with single spaces.
 */
module Chunking {
  import opened Strings

  /** `chunk_size` in both scripts. */
  const ChunkSize: nat := 3000

  /** `[words[i:i + chunk_size] for i in range(0, len(words), chunk_size)]`. */
  function Windows(words: seq<string>): (ws: seq<seq<string>>)
    ensures |ws| == (|words| + ChunkSize - 1) / ChunkSize
    ensures forall i :: 0 <= i < |ws| ==> 0 < |ws[i]| <= ChunkSize
    ensures forall i :: 0 <= i < |ws| - 1 ==> |ws[i]| == ChunkSize
    decreases |words|
  {
    if words == [] then []
    else if |words| <= ChunkSize then [words]
    else [words[..ChunkSize]] + Windows(words[ChunkSize..])
  }

  function Flatten(xss: seq<seq<string>>): seq<string> {
    if xss == [] then [] else xss[0] + Flatten(xss[1..])
  }

  /** The windows, concatenated in order, are the word list again. */
  lemma {:induction false} WindowsFlatten(words: seq<string>)
    ensures Flatten(Windows(words)) == words
    decreases |words|
  {
    if |words| > ChunkSize {
      var ws := Windows(words);
      WindowsFlatten(words[ChunkSize..]);
      assert ws[1..] == Windows(words[ChunkSize..]);
      assert words[..ChunkSize] + words[ChunkSize..] == words;
    }
  }

  /** Window `i` is the slice of the words that starts at `i * 3000`. */
  lemma {:induction false} WindowIsSlice(words: seq<string>, i: nat)
    requires i < |Windows(words)|
    ensures i * ChunkSize + |Windows(words)[i]| <= |words|
    ensures Windows(words)[i] == words[i * ChunkSize..i * ChunkSize + |Windows(words)[i]|]
    decreases |words|
  {
    if i > 0 {
      var rest := words[ChunkSize..];
      var w := Windows(words)[i];
      assert w == Windows(rest)[i - 1];
      WindowIsSlice(rest, i - 1);
      assert (i - 1) * ChunkSize + ChunkSize == i * ChunkSize;
      assert rest[(i - 1) * ChunkSize..(i - 1) * ChunkSize + |w|] == words[i * ChunkSize..i * ChunkSize + |w|];
    }
  }

  /** The chunk strings sent for summarisation: `' '.join(window)` for each window. */
  function ChunkTexts(text: string): (chunks: seq<string>)
    ensures |chunks| == (|Words(text)| + ChunkSize - 1) / ChunkSize
  {
    var ws := Windows(Words(text));
    seq(|ws|, i requires 0 <= i < |ws| => JoinWith(ws[i], " "))
  }

  /** The words of each chunk, concatenated in chunk order. */
  function WordsOfChunks(chunks: seq<string>): seq<string> {
    Flatten(seq(|chunks|, i requires 0 <= i < |chunks| => Words(chunks[i])))
  }

  /** Chunking is total and keeps order: the words of chunk `i` are window `i`, so
      every chunk but the last has exactly 3000 words, none is empty, and the
      chunks' words in order are the words of the text. */
  lemma ChunksReproduceWords(text: string)
    ensures var chunks := ChunkTexts(text);
      && (forall i :: 0 <= i < |chunks| ==> Words(chunks[i]) == Windows(Words(text))[i])
      && (forall i :: 0 <= i < |chunks| - 1 ==> |Words(chunks[i])| == ChunkSize)
      && (forall i :: 0 <= i < |chunks| ==> 0 < |Words(chunks[i])| <= ChunkSize)
      && WordsOfChunks(chunks) == Words(text)
  {
    var words := Words(text);
    var ws := Windows(words);
    var chunks := ChunkTexts(text);
    forall i | 0 <= i < |chunks| ensures Words(chunks[i]) == ws[i] {
      WindowIsSlice(words, i);
      var start := i * ChunkSize;
      assert forall j :: 0 <= j < |ws[i]| ==> ws[i][j] == words[start + j];
      SplitJoinWords(ws[i]);
    }
    assert seq(|chunks|, i requires 0 <= i < |chunks| => Words(chunks[i])) == ws;
    WindowsFlatten(words);
  }
}
