/** Lyrics as lyrics/types.go has them. */
module LyricsTypes {
  import opened Wrappers
  import opened LyricsfileDocument

  datatype Word = Word(start: real, end: real, text: string)

  datatype Line = Line(start: real, end: real, text: string, words: seq<Word>,
                       voice: string, background: bool, group: int)

  datatype SourceFormat = SourceUnknown | SourceLRC | SourceTTML | SourceLyricsfile

  /** raw is the document the lyrics were read from, word for word. */
  datatype Lyrics = Lyrics(synced: seq<Line>, plain: string, instrumental: bool,
                           title: string, artist: string, album: string, durationMs: int,
                           source: SourceFormat, raw: Option<Document>)

  predicate WordSynced(l: Lyrics) {
    exists i | 0 <= i < |l.synced| :: |l.synced[i].words| > 0
  }

  /** Two for word sync, one for line sync or instrumental, zero for plain text. */
  function Tier(l: Lyrics): nat {
    if WordSynced(l) then 2
    else if |l.synced| > 0 || l.instrumental then 1
    else 0
  }

  function JoinWords(words: seq<Word>): string {
    if words == [] then "" else JoinWords(words[..|words| - 1]) + words[|words| - 1].text
  }

  lemma {:induction false} JoinWordsJoins(words: seq<Word>, more: seq<Word>)
    ensures JoinWords(words + more) == JoinWords(words) + JoinWords(more)
    ensures |words| == 1 ==> JoinWords(words) == words[0].text
  {
    if |words| == 1 { assert words[..0] == []; }
    if more == [] {
      assert words + more == words;
    } else {
      JoinWordsJoins(words, more[..|more| - 1]);
      assert (words + more)[..|words + more| - 1] == words + more[..|more| - 1];
    }
  }

  // ---------------------------------------------------------------- a stable sort by start

  ghost predicate SortedByStart(lines: seq<Line>) {
    forall i, j | 0 <= i < j < |lines| :: lines[i].start <= lines[j].start
  }

  function InsertLine(lines: seq<Line>, line: Line): seq<Line> {
    if lines == [] || lines[|lines| - 1].start <= line.start then lines + [line]
    else InsertLine(lines[..|lines| - 1], line) + [lines[|lines| - 1]]
  }

  /** What sortLines leaves: the lines by start, equal starts in the order they had. */
  function SortLines(lines: seq<Line>): seq<Line> {
    if lines == [] then [] else InsertLine(SortLines(lines[..|lines| - 1]), lines[|lines| - 1])
  }

  /** The lines that start at one time, in order. */
  function StartingAt(lines: seq<Line>, at: real): seq<Line> {
    if lines == [] then []
    else StartingAt(lines[..|lines| - 1], at)
         + if lines[|lines| - 1].start == at then [lines[|lines| - 1]] else []
  }

  lemma {:induction false} InsertLineAdds(lines: seq<Line>, line: Line)
    ensures |InsertLine(lines, line)| == |lines| + 1
    ensures multiset(InsertLine(lines, line)) == multiset(lines) + multiset{line}
  {
    if lines != [] && lines[|lines| - 1].start > line.start {
      InsertLineAdds(lines[..|lines| - 1], line);
      assert lines == lines[..|lines| - 1] + [lines[|lines| - 1]];
    }
  }

  lemma {:induction false} InsertLineBound(lines: seq<Line>, line: Line, bound: real)
    requires line.start <= bound && forall k | 0 <= k < |lines| :: lines[k].start <= bound
    ensures forall k | 0 <= k < |InsertLine(lines, line)| :: InsertLine(lines, line)[k].start <= bound
  {
    if lines != [] && lines[|lines| - 1].start > line.start {
      InsertLineBound(lines[..|lines| - 1], line, bound);
    }
  }

  lemma {:induction false} InsertLineSorts(lines: seq<Line>, line: Line)
    requires SortedByStart(lines)
    ensures SortedByStart(InsertLine(lines, line))
  {
    if lines != [] && lines[|lines| - 1].start > line.start {
      var rest, last := lines[..|lines| - 1], lines[|lines| - 1];
      InsertLineSorts(rest, line);
      InsertLineBound(rest, line, last.start);
    }
  }

  lemma {:induction false} InsertLineKeepsOrder(lines: seq<Line>, line: Line, at: real)
    ensures StartingAt(InsertLine(lines, line), at) == StartingAt(lines + [line], at)
  {
    if lines != [] && lines[|lines| - 1].start > line.start {
      var rest, last := lines[..|lines| - 1], lines[|lines| - 1];
      InsertLineKeepsOrder(rest, line, at);
      var r := InsertLine(rest, line) + [last];
      assert r[..|r| - 1] == InsertLine(rest, line);
      assert (lines + [line])[..|lines|] == lines;
      assert (rest + [line])[..|rest|] == rest;
    }
  }

  lemma {:induction false} SortLinesSorts(lines: seq<Line>)
    ensures SortedByStart(SortLines(lines)) && |SortLines(lines)| == |lines|
    ensures multiset(SortLines(lines)) == multiset(lines)
  {
    if lines != [] {
      var rest, last := lines[..|lines| - 1], lines[|lines| - 1];
      SortLinesSorts(rest);
      InsertLineSorts(SortLines(rest), last);
      InsertLineAdds(SortLines(rest), last);
      assert lines == rest + [last];
    }
  }

  lemma {:induction false} SortLinesKeepsOrder(lines: seq<Line>, at: real)
    ensures StartingAt(SortLines(lines), at) == StartingAt(lines, at)
  {
    if lines != [] {
      var rest, last := lines[..|lines| - 1], lines[|lines| - 1];
      SortLinesKeepsOrder(rest, at);
      InsertLineKeepsOrder(SortLines(rest), last, at);
      assert (SortLines(rest) + [last])[..|SortLines(rest)|] == SortLines(rest);
    }
  }

  /** SortLines is a stable sort: ordered by start, the same lines, equal starts in the order they had. */
  lemma SortLinesIsStable(lines: seq<Line>)
    ensures SortedByStart(SortLines(lines)) && |SortLines(lines)| == |lines|
    ensures multiset(SortLines(lines)) == multiset(lines)
    ensures forall at :: StartingAt(SortLines(lines), at) == StartingAt(lines, at)
  {
    SortLinesSorts(lines);
    forall at ensures StartingAt(SortLines(lines), at) == StartingAt(lines, at) {
      SortLinesKeepsOrder(lines, at);
    }
  }

  lemma {:induction false} SortedStays(lines: seq<Line>)
    requires SortedByStart(lines)
    ensures SortLines(lines) == lines
  {
    if lines != [] {
      SortedStays(lines[..|lines| - 1]);
      assert lines == lines[..|lines| - 1] + [lines[|lines| - 1]];
    }
  }
}
