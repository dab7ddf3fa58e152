/**
 * Cutting a word-level transcript into fixed-size lines, and finding the
 * line that is active at a playback time (src/utils/transcript.ts).
 */
module Transcript {
  import opened Types

  /** The number of words per line the application uses. */
  const DefaultWordsPerLine: nat := 10

  function Min(a: int, b: int): int { if a <= b then a else b }

  /** The `word` fields of `words`, in order. */
  function Texts(words: seq<Word>): seq<string>
  {
    seq(|words|, i requires 0 <= i < |words| => words[i].word)
  }

  /** `parts.join(' ')`: the parts separated by single spaces. */
  function Join(parts: seq<string>): string
  {
    if |parts| == 0 then ""
    else if |parts| == 1 then parts[0]
    else parts[0] + " " + Join(parts[1..])
  }

  /** Joining two non-empty lists puts exactly one space between their joins. */
  lemma {:induction false} JoinAppend(a: seq<string>, b: seq<string>)
    requires |a| > 0 && |b| > 0
    ensures Join(a + b) == Join(a) + " " + Join(b)
    decreases |a|
  {
    if |a| == 1 {
      assert (a + b)[1..] == b;
    } else {
      assert (a + b)[1..] == a[1..] + b;
      JoinAppend(a[1..], b);
    }
  }

  /** The words `lo` to `hi - 1` separated by single spaces. */
  function ChunkText(words: seq<Word>, lo: nat, hi: nat): string
    requires lo < hi <= |words|
    decreases hi - lo
  {
    if hi - lo == 1 then words[lo].word else ChunkText(words, lo, hi - 1) + " " + words[hi - 1].word
  }

  /** `ChunkText` is what `chunk.map(w => w.word).join(' ')` computes. */
  lemma {:induction false} ChunkTextIsJoin(words: seq<Word>, lo: nat, hi: nat)
    requires lo < hi <= |words|
    ensures ChunkText(words, lo, hi) == Join(Texts(words[lo..hi]))
    decreases hi - lo
  {
    if hi - lo == 1 {
      assert words[lo..hi] == [words[lo]];
    } else {
      ChunkTextIsJoin(words, lo, hi - 1);
      assert words[lo..hi] == words[lo..hi - 1] + [words[hi - 1]];
      TextsAppend(words[lo..hi - 1], [words[hi - 1]]);
      JoinAppend(Texts(words[lo..hi - 1]), Texts([words[hi - 1]]));
    }
  }

  /** The line made of `words[lo..hi]`, the chunk the loop body turns into a line. */
  function MakeLine(words: seq<Word>, lo: nat, hi: nat): TranscriptLine
    requires lo < hi <= |words|
  {
    TranscriptLine(ChunkText(words, lo, hi), words[lo].start, words[hi - 1].end, (lo, hi - 1))
  }

  /** The lines of the chunks that start at `i`, `i + k`, `i + 2k`, ... */
  function LinesFrom(words: seq<Word>, k: nat, i: nat): seq<TranscriptLine>
    requires k >= 1
    decreases |words| - i
  {
    if i >= |words| then []
    else [MakeLine(words, i, Min(i + k, |words|))] + LinesFrom(words, k, i + k)
  }

  /** The lines `words` is cut into, `k` words per line. */
  function Lines(words: seq<Word>, k: nat): seq<TranscriptLine>
    requires k >= 1
  {
    LinesFrom(words, k, 0)
  }

  /**
   * `splitTranscriptIntoLines`: steps through the words `wordsPerLine` at a
   * time and appends one line per chunk.
   */
  method SplitTranscriptIntoLines(words: seq<Word>, wordsPerLine: nat := DefaultWordsPerLine)
    returns (lines: seq<TranscriptLine>)
    requires wordsPerLine >= 1
    ensures lines == Lines(words, wordsPerLine)
  {
    lines := [];
    var i: nat := 0;
    while i < |words|
      invariant lines + LinesFrom(words, wordsPerLine, i) == Lines(words, wordsPerLine)
      decreases |words| - i
    {
      var hi := Min(i + wordsPerLine, |words|);
      var chunk := words[i..hi];
      if |chunk| != 0 {
        var text := Join(Texts(chunk));
        var start := chunk[0].start;
        var end := chunk[|chunk| - 1].end;
        var wordIndices := (i, i + |chunk| - 1);
        var line := TranscriptLine(text, start, end, wordIndices);
        ghost var rest := LinesFrom(words, wordsPerLine, i + wordsPerLine);
        assert (lines + [line]) + rest == Lines(words, wordsPerLine) by {
          ChunkTextIsJoin(words, i, hi);
          assert line == MakeLine(words, i, hi);
          assert LinesFrom(words, wordsPerLine, i) == [line] + rest;
          assert (lines + [line]) + rest == lines + ([line] + rest);
        }
        lines := lines + [line];
      }
      i := i + wordsPerLine;
    }
    assert LinesFrom(words, wordsPerLine, i) == [];
  }

  /** The index `j` steps of `k` after `i`. */
  function StartAfter(i: nat, k: nat, j: nat): nat
    decreases j
  {
    if j == 0 then i else StartAfter(i + k, k, j - 1)
  }

  lemma {:induction false} StartAfterIs(i: nat, k: nat, j: nat)
    ensures StartAfter(i, k, j) == i + j * k
    decreases j
  {
    if j > 0 {
      StartAfterIs(i + k, k, j - 1);
      MulSucc(j - 1, k);
    }
  }

  /** Line `j` of the lines from `i` is the first line from `j` steps further. */
  lemma {:induction false} LinesFromShift(words: seq<Word>, k: nat, i: nat, j: nat)
    requires k >= 1 && j < |LinesFrom(words, k, i)|
    ensures StartAfter(i, k, j) < |words|
    ensures LinesFrom(words, k, i)[j] == LinesFrom(words, k, StartAfter(i, k, j))[0]
    decreases j
  {
    if j > 0 {
      var rest := LinesFrom(words, k, i + k);
      assert LinesFrom(words, k, i)[j] == rest[j - 1];
      LinesFromShift(words, k, i + k, j - 1);
    }
  }

  /** Line `j` of the lines from `i` is the chunk starting at `i + j * k`. */
  lemma LinesFromAt(words: seq<Word>, k: nat, i: nat, j: nat)
    requires k >= 1 && j < |LinesFrom(words, k, i)|
    ensures i + j * k < |words|
    ensures LinesFrom(words, k, i)[j] == MakeLine(words, i + j * k, Min(i + j * k + k, |words|))
  {
    LinesFromShift(words, k, i, j);
    StartAfterIs(i, k, j);
  }

  /** The number of chunks of `k` that start at `i`, `i + k`, ... below `n`. */
  function ChunkCount(n: nat, k: nat, i: nat): nat
    requires k >= 1
    decreases n - i
  {
    if i >= n then 0 else 1 + ChunkCount(n, k, i + k)
  }

  /** There is one line from `i` per chunk of the remaining words. */
  lemma {:induction false} LinesFromLength(words: seq<Word>, k: nat, i: nat)
    requires k >= 1
    ensures |LinesFrom(words, k, i)| == ChunkCount(|words|, k, i)
    decreases |words| - i
  {
    if i < |words| {
      LinesFromLength(words, k, i + k);
    }
  }

  lemma MulSucc(c: int, k: int)
    ensures (c + 1) * k == c * k + k
  {
  }

  /** `c` chunks of `k` hold the `n - i` words from `i` exactly when `(c - 1) * k < n - i <= c * k`. */
  lemma {:induction false} ChunkCountBounds(n: nat, k: nat, i: nat)
    requires k >= 1 && i < n
    ensures (ChunkCount(n, k, i) - 1) * k < n - i <= ChunkCount(n, k, i) * k
    decreases n - i
  {
    var c := ChunkCount(n, k, i + k);
    if i + k < n {
      ChunkCountBounds(n, k, i + k);
    }
    MulSucc(c, k);
  }

  /** For `n > 0` the only `c` with `(c - 1) * k < n <= c * k` is `ceil(n / k)`. */
  lemma CeilingUnique(n: nat, k: nat, c: int)
    requires k >= 1 && n > 0
    requires (c - 1) * k < n <= c * k
    ensures c == (n + k - 1) / k
  {
    var q, r := (n + k - 1) / k, (n + k - 1) % k;
    assert n + k - 1 == q * k + r && 0 <= r < k;
    MulSucc(c - 1, k);
    MulSucc(q - 1, k);
    MulSucc(q, k);
    FactorLess(c, q + 1, k);
    FactorLess(q - 1, c, k);
  }

  lemma FactorLess(a: int, b: int, k: nat)
    requires k >= 1 && a * k < b * k
    ensures a < b
  {
    if a >= b {
      assert a * k - b * k == (a - b) * k;
      NonNegProduct(a - b, k);
    }
  }

  lemma {:induction false} NonNegProduct(x: nat, k: nat)
    ensures x * k >= 0
  {
  }

  /** Count: no line for no words, otherwise exactly `ceil(n / k)` lines. */
  lemma LinesCount(words: seq<Word>, k: nat)
    requires k >= 1
    ensures |words| == 0 <==> |Lines(words, k)| == 0
    ensures |Lines(words, k)| == (|words| + k - 1) / k
  {
    LinesFromLength(words, k, 0);
    if |words| > 0 {
      ChunkCountBounds(|words|, k, 0);
      CeilingUnique(|words|, k, |Lines(words, k)|);
    }
  }

  /** Line `j` covers words `j * k` to `min(j * k + k, n) - 1`. */
  lemma LineAt(words: seq<Word>, k: nat, j: nat)
    requires k >= 1 && j < |Lines(words, k)|
    ensures j * k < |words|
    ensures Lines(words, k)[j] == MakeLine(words, j * k, Min(j * k + k, |words|))
  {
    LinesFromAt(words, k, 0, j);
  }

  /**
   * Tiling: the word ranges start at 0, each starts one past the previous
   * one's end, and the last ends at the last word; every line but the last
   * has exactly `k` words and the last has between 1 and `k`.
   */
  lemma LinesTile(words: seq<Word>, k: nat)
    requires k >= 1
    ensures var lines := Lines(words, k);
      (|lines| > 0 ==> lines[0].wordIndices.0 == 0 && lines[|lines| - 1].wordIndices.1 == |words| - 1)
      && (forall j :: 0 <= j < |lines| - 1 ==> lines[j + 1].wordIndices.0 == lines[j].wordIndices.1 + 1)
      && (forall j :: 0 <= j < |lines| - 1 ==> lines[j].wordIndices.1 - lines[j].wordIndices.0 + 1 == k)
      && (|lines| > 0 ==> 1 <= lines[|lines| - 1].wordIndices.1 - lines[|lines| - 1].wordIndices.0 + 1 <= k)
  {
    var lines := Lines(words, k);
    var n := |lines|;
    if n > 0 {
      LineAt(words, k, 0);
      LastLine(words, k);
    }
    forall j | 0 <= j < n - 1
      ensures lines[j + 1].wordIndices.0 == lines[j].wordIndices.1 + 1
      ensures lines[j].wordIndices.1 - lines[j].wordIndices.0 + 1 == k
    {
      AdjacentLines(words, k, j);
    }
  }

  /** The last line ends at the last word and holds between 1 and `k` words. */
  lemma LastLine(words: seq<Word>, k: nat)
    requires k >= 1 && |Lines(words, k)| > 0
    ensures var last := Lines(words, k)[|Lines(words, k)| - 1];
      last.wordIndices.1 == |words| - 1 && 1 <= last.wordIndices.1 - last.wordIndices.0 + 1 <= k
  {
    var n := |Lines(words, k)|;
    LinesFromLength(words, k, 0);
    ChunkCountBounds(|words|, k, 0);
    LineAt(words, k, n - 1);
    MulSucc(n - 1, k);
  }

  /** A line that is not the last has `k` words and the next one starts right after it. */
  lemma AdjacentLines(words: seq<Word>, k: nat, j: nat)
    requires k >= 1 && j + 1 < |Lines(words, k)|
    ensures var lines := Lines(words, k);
      lines[j + 1].wordIndices.0 == lines[j].wordIndices.1 + 1
      && lines[j].wordIndices.1 - lines[j].wordIndices.0 + 1 == k
  {
    LineAt(words, k, j);
    LineAt(words, k, j + 1);
    MulSucc(j, k);
  }

  /**
   * Each line's text is its words joined with single spaces, its start the
   * start of its first word and its end the end of its last word.
   */
  lemma LineContents(words: seq<Word>, k: nat, j: nat)
    requires k >= 1 && j < |Lines(words, k)|
    ensures var line := Lines(words, k)[j];
      0 <= line.wordIndices.0 <= line.wordIndices.1 < |words|
      && line.text == Join(Texts(words[line.wordIndices.0..line.wordIndices.1 + 1]))
      && line.start == words[line.wordIndices.0].start
      && line.end == words[line.wordIndices.1].end
  {
    LineAt(words, k, j);
    var lo := j * k;
    var hi := Min(lo + k, |words|);
    ChunkTextIsJoin(words, lo, hi);
    var line := Lines(words, k)[j];
    assert line.wordIndices.0 == lo && line.wordIndices.1 + 1 == hi;
  }

  /** The texts of the lines, in order. */
  function LineTexts(lines: seq<TranscriptLine>): seq<string>
  {
    seq(|lines|, i requires 0 <= i < |lines| => lines[i].text)
  }

  lemma {:induction false} LinesFromJoin(words: seq<Word>, k: nat, i: nat)
    requires k >= 1 && i < |words|
    ensures Join(LineTexts(LinesFrom(words, k, i))) == Join(Texts(words[i..]))
    decreases |words| - i
  {
    if i + k >= |words| {
      LastChunkJoin(words, k, i);
    } else {
      LinesFromJoin(words, k, i + k);
      ChunkJoinStep(words, k, i);
    }
  }

  lemma LastChunkJoin(words: seq<Word>, k: nat, i: nat)
    requires k >= 1 && i < |words| <= i + k
    ensures Join(LineTexts(LinesFrom(words, k, i))) == Join(Texts(words[i..]))
  {
    var first := MakeLine(words, i, |words|);
    assert LinesFrom(words, k, i) == [first];
    assert LineTexts([first]) == [first.text];
    ChunkTextIsJoin(words, i, |words|);
    assert words[i..|words|] == words[i..];
  }

  lemma ChunkJoinStep(words: seq<Word>, k: nat, i: nat)
    requires k >= 1 && i + k < |words|
    requires Join(LineTexts(LinesFrom(words, k, i + k))) == Join(Texts(words[i + k..]))
    ensures Join(LineTexts(LinesFrom(words, k, i))) == Join(Texts(words[i..]))
  {
    var e := i + k;
    var first := MakeLine(words, i, e);
    var rest := LinesFrom(words, k, e);
    assert |rest| > 0;
    calc {
      Join(LineTexts(LinesFrom(words, k, i)));
      { assert LinesFrom(words, k, i) == [first] + rest; }
      Join(LineTexts([first] + rest));
      { LineTextsCons(first, rest); }
      Join([first.text] + LineTexts(rest));
      { JoinAppend([first.text], LineTexts(rest)); }
      Join([first.text]) + " " + Join(LineTexts(rest));
      first.text + " " + Join(Texts(words[e..]));
      { ChunkThenRest(words, i, e); }
      Join(Texts(words[i..]));
    }
  }

  /** The words from `i` joined are the chunk `i..e`, a space, and the words from `e`. */
  lemma ChunkThenRest(words: seq<Word>, i: nat, e: nat)
    requires i < e < |words|
    ensures Join(Texts(words[i..])) == ChunkText(words, i, e) + " " + Join(Texts(words[e..]))
  {
    ChunkTextIsJoin(words, i, e);
    assert words[i..] == words[i..e] + words[e..];
    TextsAppend(words[i..e], words[e..]);
    JoinAppend(Texts(words[i..e]), Texts(words[e..]));
  }

  lemma LineTextsCons(first: TranscriptLine, rest: seq<TranscriptLine>)
    ensures LineTexts([first] + rest) == [first.text] + LineTexts(rest)
  {
  }

  lemma TextsAppend(a: seq<Word>, b: seq<Word>)
    ensures Texts(a + b) == Texts(a) + Texts(b)
  {
  }

  /** Partition: joining the line texts with single spaces gives all words joined. */
  lemma LinesJoin(words: seq<Word>, k: nat)
    requires k >= 1
    ensures Join(LineTexts(Lines(words, k))) == Join(Texts(words))
  {
    if |words| > 0 {
      LinesFromJoin(words, k, 0);
      assert words[0..] == words;
    }
  }

  /** Three words two to a line: "a b" over words 0-1, then "c" over word 2. */
  lemma SegmentationExample()
    ensures Lines([Word("a", 0.0, 1.0), Word("b", 1.0, 2.0), Word("c", 2.0, 3.0)], 2)
      == [TranscriptLine("a b", 0.0, 2.0, (0, 1)), TranscriptLine("c", 2.0, 3.0, (2, 2))]
  {
    var words := [Word("a", 0.0, 1.0), Word("b", 1.0, 2.0), Word("c", 2.0, 3.0)];
    assert Texts(words[0..2]) == ["a", "b"];
    assert Join(["a", "b"]) == "a b";
    assert Texts(words[2..3]) == ["c"];
    assert LinesFrom(words, 2, 4) == [];
  }

  /** The half-open test `start <= t < end` of one line. */
  predicate Contains(line: TranscriptLine, t: real)
  {
    line.start <= t < line.end
  }

  /** The first line at or after `i` that contains `t`, or -1 when there is none. */
  function ActiveFrom(t: real, lines: seq<TranscriptLine>, i: nat): (r: int)
    requires i <= |lines|
    ensures r == -1 || i <= r < |lines|
    ensures r != -1 ==> Contains(lines[r], t) && forall j :: i <= j < r ==> !Contains(lines[j], t)
    ensures r == -1 <==> forall j :: i <= j < |lines| ==> !Contains(lines[j], t)
    decreases |lines| - i
  {
    if i == |lines| then -1
    else if Contains(lines[i], t) then i
    else ActiveFrom(t, lines, i + 1)
  }

  /** The index of the active line at time `t`, or -1. */
  function ActiveLineIndex(t: real, lines: seq<TranscriptLine>): int
  {
    ActiveFrom(t, lines, 0)
  }

  /**
   * `findActiveLineIndex`: scans the lines in order and returns the first
   * one whose half-open interval holds `currentTime`, or -1.
   */
  method FindActiveLineIndex(currentTime: real, lines: seq<TranscriptLine>) returns (r: int)
    ensures r == -1 || 0 <= r < |lines|
    ensures r != -1 ==> lines[r].start <= currentTime < lines[r].end
    ensures r != -1 ==> forall j :: 0 <= j < r ==> !Contains(lines[j], currentTime)
    ensures r == -1 <==> forall j :: 0 <= j < |lines| ==> !Contains(lines[j], currentTime)
    ensures r == ActiveLineIndex(currentTime, lines)
  {
    for i := 0 to |lines|
      invariant forall j :: 0 <= j < i ==> !Contains(lines[j], currentTime)
      invariant ActiveFrom(currentTime, lines, i) == ActiveLineIndex(currentTime, lines)
    {
      if currentTime >= lines[i].start && currentTime < lines[i].end {
        return i;
      }
    }
    return -1;
  }

  /** A zero-width line can never be the active one. */
  lemma ZeroWidthNeverActive(t: real, lines: seq<TranscriptLine>, i: nat)
    requires i < |lines| && lines[i].start == lines[i].end
    ensures ActiveLineIndex(t, lines) != i
  {
  }

  /**
   * At the instant where line `i` ends and line `i + 1` starts, line `i + 1`
   * is active (if nothing earlier holds the instant and it is not empty).
   */
  lemma SharedBoundaryGoesToNext(t: real, lines: seq<TranscriptLine>, i: nat)
    requires i + 1 < |lines|
    requires t == lines[i].end == lines[i + 1].start < lines[i + 1].end
    requires forall j :: 0 <= j < i ==> !Contains(lines[j], t)
    ensures ActiveLineIndex(t, lines) == i + 1
  {
  }

  /** Time 6 against the lines (0, 5) and (7, 10), which leave it in the gap, selects no line. */
  lemma GapSelectsNothing()
    ensures ActiveLineIndex(6.0, [TranscriptLine("a", 0.0, 5.0, (0, 0)), TranscriptLine("b", 7.0, 10.0, (1, 1))]) == -1
  {
  }
}
