/** What the Lyricsfile decoder and encoder of lyrics/lyricsfile.go make of each document and of each line, told in
    the fields of the two. */
module LyricsfileMeaning {
  import opened Wrappers
  import opened Rounding
  import opened Text
  import opened LyricsTypes
  import opened LyricsfileDocument
  import opened Lyricsfile

  // ---------------------------------------------------------------- which documents are accepted

  /** A start that is not negative, and an end, if there is one, that is not before it. */
  predicate Timed(s: Span) {
    && s.startMs.Some? && s.startMs.value >= 0
    && (s.endMs.Some? ==> s.endMs.value >= s.startMs.value)
  }

  function AllWords(lines: seq<DocumentLine>): seq<Span> {
    if lines == [] then [] else AllWords(lines[..|lines| - 1]) + lines[|lines| - 1].words
  }

  lemma {:induction false} AllWordsCount(lines: seq<DocumentLine>)
    ensures |AllWords(lines)| == SpanTotal(lines)
  {
    if lines != [] { AllWordsCount(lines[..|lines| - 1]); }
  }

  lemma TimedHasTiming(s: Span)
    ensures TimingOf(s).Some? <==> Timed(s)
    ensures Timed(s) ==> TimingOf(s).value == Timing(s.startMs.value as real / 1000.0,
                                                     if s.endMs.Some? then s.endMs.value as real / 1000.0 else 0.0)
  {
  }

  lemma LineNeedsTiming(d: DocumentLine)
    ensures LineOf(d).Some? <==> Timed(d.span)
  {
    TimedHasTiming(d.span);
  }

  /** The first line that cannot be used comes before the words are too many. */
  ghost predicate UntimedFirst(lines: seq<DocumentLine>, i: nat) {
    && i < |lines| && !Timed(lines[i].span) && |AllWords(lines[..i])| <= 16000
    && forall j | 0 <= j < i :: Timed(lines[j].span)
  }

  ghost predicate AllTimed(lines: seq<DocumentLine>) {
    forall i | 0 <= i < |lines| :: Timed(lines[i].span)
  }

  lemma UntimedInFront(lines: seq<DocumentLine>, i: nat)
    requires lines != [] && i < |lines| - 1
    ensures UntimedFirst(lines, i) <==> UntimedFirst(lines[..|lines| - 1], i)
  {
    assert lines[..i] == lines[..|lines| - 1][..i];
  }

  lemma UntimedAtEnd(lines: seq<DocumentLine>)
    requires lines != []
    ensures var n := |lines| - 1;
            (exists i :: UntimedFirst(lines, i)) <==>
            (exists i :: UntimedFirst(lines[..n], i))
            || (AllTimed(lines[..n]) && !Timed(lines[n].span) && |AllWords(lines[..n])| <= 16000)
  {
    var n := |lines| - 1;
    if i: nat :| UntimedFirst(lines[..n], i) { UntimedInFront(lines, i); }
    if i: nat :| UntimedFirst(lines, i) {
      if i < n { UntimedInFront(lines, i); }
      else { assert forall j | 0 <= j < n :: lines[..n][j] == lines[j]; }
    }
    if AllTimed(lines[..n]) && !Timed(lines[n].span) && |AllWords(lines[..n])| <= 16000 {
      assert forall j | 0 <= j < n :: lines[..n][j] == lines[j];
      assert UntimedFirst(lines, n);
    }
  }

  lemma AllTimedMore(lines: seq<DocumentLine>)
    requires lines != []
    ensures var n := |lines| - 1; AllTimed(lines) <==> AllTimed(lines[..n]) && Timed(lines[n].span)
  {
    assert forall j | 0 <= j < |lines| - 1 :: lines[..|lines| - 1][j] == lines[j];
  }

  lemma {:induction false} LinesOkExactly(lines: seq<DocumentLine>)
    ensures LinesOf(lines).Ok? <==> AllTimed(lines) && |AllWords(lines)| <= 16000
  {
    if lines != [] {
      var n := |lines| - 1;
      LinesOkExactly(lines[..n]);
      LineNeedsTiming(lines[n]);
      AllWordsCount(lines);
      AllTimedMore(lines);
    }
  }

  lemma {:induction false} LinesMalformedExactly(lines: seq<DocumentLine>)
    ensures LinesOf(lines) == Err(Malformed) <==> exists i :: UntimedFirst(lines, i)
  {
    if lines != [] {
      var n := |lines| - 1;
      LinesMalformedExactly(lines[..n]);
      LinesOkExactly(lines[..n]);
      LineNeedsTiming(lines[n]);
      UntimedAtEnd(lines);
    }
  }

  /** Version 1.0 and, unless instrumental, at most 2000 lines, of plain text too, each of them timed, and at most
      16000 words. */
  ghost predicate Acceptable(d: Document) {
    && d.version == "1.0"
    && (d.instrumental ||
        (|d.lines| <= 2000 && multiset(d.plain)['\n'] < 2000 && AllTimed(d.lines) && |AllWords(d.lines)| <= 16000))
  }

  /** The decoder accepts exactly those, and what it refuses it calls malformed rather than too large exactly when
      the version is another or an untimed line comes first. */
  lemma DecodeAcceptsExactly(d: Document)
    ensures Decode(d).Ok? <==> Acceptable(d)
    ensures Decode(d) == Err(Malformed) <==>
            || d.version != "1.0"
            || (!d.instrumental && |d.lines| <= 2000 && multiset(d.plain)['\n'] < 2000
                && exists i :: UntimedFirst(d.lines, i))
  {
    CountCounts(d.plain, '\n');
    LinesOkExactly(d.lines);
    LinesMalformedExactly(d.lines);
  }

  // ---------------------------------------------------------------- what a line is read as

  function TextOfSpans(spans: seq<Span>): string {
    if spans == [] then "" else TextOfSpans(spans[..|spans| - 1]) + spans[|spans| - 1].text
  }

  predicate BlankText(s: string) {
    forall k | 0 <= k < |s| :: IsSpace(s[k])
  }

  lemma BlankIsBlank(s: string)
    ensures Blank(s) <==> BlankText(s)
  {
    var i, j := TrimSpaceCuts(s);
    TrimSpaceTrims(s);
    if Blank(s) { assert i == j; }
    if !Blank(s) { assert TrimSpace(s)[0] == s[i] && !IsSpace(s[i]); }
  }

  /** Every word of the line is timed. */
  predicate WordsTimed(words: seq<Span>) {
    forall k | 0 <= k < |words| :: Timed(words[k])
  }

  /** The text of a line: its own, or that of its words when it has none and they can be used. */
  function ShownText(d: DocumentLine): string {
    if d.span.text != "" then d.span.text else if WordsTimed(d.words) then TextOfSpans(d.words) else ""
  }

  /** The words are kept: all timed, and together the text of the line, which is not blank. */
  predicate KeepsWords(d: DocumentLine) {
    WordsTimed(d.words) && TextOfSpans(d.words) == ShownText(d) && !BlankText(ShownText(d))
  }

  predicate SameWord(w: Word, s: Span)
    requires Timed(s)
  {
    w == Word(s.startMs.value as real / 1000.0, if s.endMs.Some? then s.endMs.value as real / 1000.0 else 0.0, s.text)
  }

  /** Its start is the earliest of its own and those of the words it keeps. */
  ghost predicate StartsEarliest(line: Line, start: real) {
    && line.start <= start && (forall k | 0 <= k < |line.words| :: line.start <= line.words[k].start)
    && (line.start == start || exists k :: 0 <= k < |line.words| && line.start == line.words[k].start)
  }

  ghost predicate ReadAs(d: DocumentLine, line: Line)
    requires Timed(d.span)
  {
    && line.text == ShownText(d)
    && line.end == (if d.span.endMs.Some? then d.span.endMs.value as real / 1000.0 else 0.0)
    && (if KeepsWords(d)
        then |line.words| == |d.words| && forall k | 0 <= k < |d.words| :: SameWord(line.words[k], d.words[k])
        else line.words == [])
    && StartsEarliest(line, d.span.startMs.value as real / 1000.0)
    && line.voice == "" && !line.background && line.group == 0
  }

  lemma {:induction false} SpansSpell(words: seq<Word>, spans: seq<Span>)
    requires |words| == |spans| && forall k | 0 <= k < |spans| :: words[k].text == spans[k].text
    ensures JoinWords(words) == TextOfSpans(spans)
  {
    if spans != [] { SpansSpell(words[..|words| - 1], spans[..|spans| - 1]); }
  }

  lemma WordsAreRead(spans: seq<Span>)
    ensures WordsTimed(spans) ==>
              |WordsOf(spans)| == |spans| && forall k | 0 <= k < |spans| :: SameWord(WordsOf(spans)[k], spans[k])
    ensures JoinWords(WordsOf(spans)) == if WordsTimed(spans) then TextOfSpans(spans) else ""
  {
    forall k | 0 <= k < |spans| ensures TimingOf(spans[k]).Some? <==> Timed(spans[k]) { TimedHasTiming(spans[k]); }
    if WordsTimed(spans) {
      forall k | 0 <= k < |spans| ensures SameWord(WordsOf(spans)[k], spans[k]) { TimedHasTiming(spans[k]); }
      SpansSpell(WordsOf(spans), spans);
    }
  }

  lemma {:induction false} EarliestWordIs(start: real, words: seq<Word>)
    ensures var e := EarliestWord(start, words);
            && e <= start && (forall k | 0 <= k < |words| :: e <= words[k].start)
            && (e == start || exists k :: 0 <= k < |words| && e == words[k].start)
  {
    if words != [] {
      EarliestWordIs(start, words[..|words| - 1]);
      var before := EarliestWord(start, words[..|words| - 1]);
      if before != start {
        var k :| 0 <= k < |words| - 1 && before == words[..|words| - 1][k].start;
        assert before == words[k].start;
      }
    }
  }

  lemma LineIsReadAs(d: DocumentLine)
    requires Timed(d.span)
    ensures LineOf(d).Some? && ReadAs(d, LineOf(d).value)
  {
    TimedHasTiming(d.span);
    WordsAreRead(d.words);
    var words := WordsOf(d.words);
    var text := if d.span.text == "" then JoinWords(words) else d.span.text;
    BlankIsBlank(text);
    EarliestWordIs(TimingOf(d.span).value.start, words);
    assert text == ShownText(d);
  }

  lemma {:induction false} LinesOneByOne(ds: seq<DocumentLine>)
    requires LinesOf(ds).Ok?
    ensures |LinesOf(ds).value| == |ds|
    ensures forall i | 0 <= i < |ds| :: LineOf(ds[i]) == Some(LinesOf(ds).value[i])
  {
    if ds != [] { LinesOneByOne(ds[..|ds| - 1]); }
  }

  lemma LinesAreRead(ds: seq<DocumentLine>)
    requires LinesOf(ds).Ok?
    ensures |LinesOf(ds).value| == |ds|
    ensures forall i | 0 <= i < |ds| :: Timed(ds[i].span) && ReadAs(ds[i], LinesOf(ds).value[i])
  {
    LinesOneByOne(ds);
    forall i | 0 <= i < |ds| ensures Timed(ds[i].span) && ReadAs(ds[i], LinesOf(ds).value[i]) {
      LineNeedsTiming(ds[i]);
      LineIsReadAs(ds[i]);
    }
  }

  /** What a document that is accepted is read as: its lines as above, sorted by their starts, those that start
      together in the order of the document; its plain text, or that of its lines; and its metadata. */
  lemma DecodedAs(d: Document) returns (lines: seq<Line>)
    requires Decode(d).Ok?
    ensures var l := Decode(d).value;
            && l.title == d.title && l.artist == d.artist && l.album == d.album && l.durationMs == d.durationMs
            && l.instrumental == d.instrumental && l.raw == Some(d) && l.source == SourceLyricsfile
            && (d.instrumental ==> l.synced == [] && l.plain == "")
            && (!d.instrumental ==>
                  && |lines| == |d.lines|
                  && (forall i | 0 <= i < |lines| :: Timed(d.lines[i].span) && ReadAs(d.lines[i], lines[i]))
                  && SortedByStart(l.synced) && multiset(l.synced) == multiset(lines)
                  && (forall at :: StartingAt(l.synced, at) == StartingAt(lines, at))
                  && l.plain == if d.plain != "" then d.plain else Join(TextsOf(l.synced), "\n"))
  {
    lines := [];
    if !d.instrumental {
      lines := LinesOf(d.lines).value;
      LinesAreRead(d.lines);
      SortLinesIsStable(lines);
    }
  }

  // ---------------------------------------------------------------- what a line is written as

  /** A stamp the encoder writes, and the whole number of milliseconds nearest to it. */
  predicate Stamped(seconds: real, ms: int) {
    && 0.0 <= seconds <= 9223372036854776.0
    && ms as real - 0.5 <= seconds * 1000.0 < ms as real + 0.5
  }

  lemma StampIsNearest(seconds: real)
    ensures StampMs(seconds).Some? <==> 0.0 <= seconds <= 9223372036854776.0
    ensures StampMs(seconds).Some? && Fits(seconds) ==> Stamped(seconds, StampMs(seconds).value)
  {
    RoundedIsNearest(seconds * 1000.0);
  }

  /** A word or line with its stamps, none for an end of zero; a rounded end is not before the start. */
  predicate WrittenAs(start: real, end: real, s: Span) {
    && s.startMs.Some? && Stamped(start, s.startMs.value)
    && (end == 0.0 <==> s.endMs == None)
    && (s.endMs.Some? ==> Stamped(end, s.endMs.value) && s.endMs.value >= s.startMs.value)
  }

  lemma StampIsUnique(seconds: real, ms: int)
    requires Stamped(seconds, ms) && Fits(seconds)
    ensures StampMs(seconds) == Some(ms)
  {
    StampIsNearest(seconds);
  }

  /** A word can be written exactly when there is such a span, and that is how. */
  lemma WordIsWrittenExactly(w: Word)
    requires Fits(w.start) && Fits(w.end)
    ensures SpanOf(w).Some? ==> WrittenAs(w.start, w.end, SpanOf(w).value) && SpanOf(w).value.text == w.text
    ensures forall s: Span | WrittenAs(w.start, w.end, s) :: SpanOf(w).Some? && SpanOf(w).value == s.(text := w.text)
  {
    StampIsNearest(w.start);
    StampIsNearest(w.end);
    forall s: Span | WrittenAs(w.start, w.end, s) ensures SpanOf(w).Some? && SpanOf(w).value == s.(text := w.text) {
      StampIsUnique(w.start, s.startMs.value);
      if s.endMs.Some? { StampIsUnique(w.end, s.endMs.value); }
    }
  }

  ghost predicate WordWritable(w: Word) {
    exists s: Span :: WrittenAs(w.start, w.end, s)
  }

  /** A line's words are written when each can be and together they are its text, which is not blank. */
  ghost predicate WordsWritten(line: Line, text: string) {
    && line.words != [] && JoinWords(line.words) == text && !BlankText(text)
    && forall k | 0 <= k < |line.words| :: WordWritable(line.words[k])
  }

  ghost predicate AllFit(line: Line) {
    && Fits(line.start) && Fits(line.end)
    && forall k | 0 <= k < |line.words| :: Fits(line.words[k].start) && Fits(line.words[k].end)
  }

  lemma WordsAreWritten(line: Line, text: string)
    requires AllFit(line)
    ensures SpansOf(line.words, text).Some? <==> WordsWritten(line, text)
    ensures SpansOf(line.words, text).Some? ==>
              var spans := SpansOf(line.words, text).value;
              && |spans| == |line.words|
              && forall k | 0 <= k < |spans| ::
                   spans[k].text == line.words[k].text && WrittenAs(line.words[k].start, line.words[k].end, spans[k])
  {
    BlankIsBlank(text);
    forall k | 0 <= k < |line.words|
      ensures SpanOf(line.words[k]).Some? <==> WordWritable(line.words[k])
      ensures SpanOf(line.words[k]).Some? ==>
                WrittenAs(line.words[k].start, line.words[k].end, SpanOf(line.words[k]).value)
                && SpanOf(line.words[k]).value.text == line.words[k].text
    {
      WordIsWrittenExactly(line.words[k]);
    }
  }

  lemma {:induction false} EarliestSpanIs(start: int, spans: seq<Span>)
    requires forall k | 0 <= k < |spans| :: spans[k].startMs.Some?
    ensures var e := EarliestSpan(start, spans);
            && e <= start && (forall k | 0 <= k < |spans| :: e <= spans[k].startMs.value)
            && (e == start || exists k :: 0 <= k < |spans| && e == spans[k].startMs.value)
  {
    if spans != [] {
      EarliestSpanIs(start, spans[..|spans| - 1]);
      var before := EarliestSpan(start, spans[..|spans| - 1]);
      if before != start {
        var k :| 0 <= k < |spans| - 1 && before == spans[..|spans| - 1][k].startMs.value;
        assert before == spans[k].startMs.value;
      }
    }
  }

  /** The line starts at its own start or with the earliest of the words that are written. */
  ghost predicate WritesEarliest(d: DocumentLine, start: int) {
    && d.span.startMs.Some? && d.span.startMs.value <= start
    && (forall k | 0 <= k < |d.words| :: d.words[k].startMs.Some? && d.span.startMs.value <= d.words[k].startMs.value)
    && (d.span.startMs.value == start ||
        exists k :: 0 <= k < |d.words| && d.words[k].startMs == d.span.startMs)
  }

  ghost predicate LineWrittenAs(line: Line, d: DocumentLine, own: Span) {
    && WrittenAs(line.start, line.end, own) && own.startMs.Some?
    && d.span.text == (if line.text != "" then line.text else JoinWords(line.words))
    && d.span.endMs == own.endMs
    && WritesEarliest(d, own.startMs.value)
    && (if WordsWritten(line, d.span.text)
        then |d.words| == |line.words| && forall k | 0 <= k < |d.words| ::
               d.words[k].text == line.words[k].text && WrittenAs(line.words[k].start, line.words[k].end, d.words[k])
        else d.words == [])
  }

  /** A line can be written exactly when its own stamps can be, and that is how. */
  lemma LineIsWrittenAs(line: Line) returns (own: Span)
    requires AllFit(line)
    ensures Stampable(line) <==> exists s: Span :: WrittenAs(line.start, line.end, s)
    ensures Stampable(line) ==> LineWrittenAs(line, DocumentLineOf(line), own)
  {
    var w := Word(line.start, line.end, "");
    WordIsWrittenExactly(w);
    assert SpanOf(w).Some? <==> Stampable(line);
    own := Span("", None, None);
    if SpanOf(w).Some? {
      own := SpanOf(w).value;
      WordsAreWritten(line, LineText(line));
      var spans := SpansOf(line.words, LineText(line));
      if spans.Some? { EarliestSpanIs(own.startMs.value, spans.value); }
    }
  }

  ghost predicate Writes(line: Line, d: DocumentLine) {
    exists own :: LineWrittenAs(line, d, own)
  }

  /** What lyrics are written as: version 1.0, their metadata, and their lines by start, those that start together
      in the order they had, each as above; and the plain text, or that of the lines. */
  lemma EncodedAs(l: Lyrics) returns (lines: seq<Line>)
    requires l.raw == None && Encode(l).Ok? && forall line | line in l.synced :: AllFit(line)
    ensures var d := Encode(l).value;
            && d.version == "1.0" && d.title == l.title && d.artist == l.artist && d.album == l.album
            && d.durationMs == l.durationMs && d.instrumental == l.instrumental
            && (l.instrumental ==> d.lines == [] && d.plain == "")
            && (!l.instrumental ==>
                  && SortedByStart(lines) && multiset(lines) == multiset(l.synced)
                  && (forall at :: StartingAt(lines, at) == StartingAt(l.synced, at))
                  && |d.lines| == |lines| && (forall i | 0 <= i < |lines| :: Writes(lines[i], d.lines[i]))
                  && d.plain == if l.plain != "" then l.plain else Join(WrittenTexts(lines), "\n"))
  {
    lines := SortLines(l.synced);
    SortLinesIsStable(l.synced);
    if !l.instrumental {
      forall i | 0 <= i < |lines| ensures Writes(lines[i], Encode(l).value.lines[i]) {
        assert lines[i] in multiset(lines);
        var own := LineIsWrittenAs(lines[i]);
      }
    }
  }

  function WordsIn(lines: seq<Line>): seq<Word> {
    if lines == [] then [] else WordsIn(lines[..|lines| - 1]) + lines[|lines| - 1].words
  }

  lemma {:induction false} WordsInCount(lines: seq<Line>)
    ensures |WordsIn(lines)| == WordTotal(lines)
  {
    if lines != [] { WordsInCount(lines[..|lines| - 1]); }
  }

  /** Lyrics that were read from a Lyricsfile are written as that file; of all others the file they came from does
      not matter. */
  lemma SourceDecides(l: Lyrics)
    ensures Encode(l) ==
            if l.source == SourceLyricsfile && l.raw.Some? then Ok(l.raw.value) else Encode(l.(raw := None))
  {
  }

  /** The encoder refuses without a title or an artist and for a negative duration; instrumentals it never refuses
      otherwise. What is too much it calls too large, and what cannot be stamped malformed. */
  lemma EncodeRefusesExactly(l: Lyrics)
    requires l.raw == None
    ensures var named := l.title != "" && l.artist != "" && l.durationMs >= 0;
            var large := |l.synced| > 2000 || |WordsIn(l.synced)| > 16000;
            var stamped := forall line | line in l.synced :: Stampable(line);
            && (Encode(l).Ok? <==>
                  named && (l.instrumental || (!large && stamped && multiset(WrittenPlain(l))['\n'] < 2000)))
            && (Encode(l) == Err(Malformed) <==> !named || (!l.instrumental && !large && !stamped))
  {
    CountCounts(WrittenPlain(l), '\n');
    WordsInCount(l.synced);
    SortLinesIsStable(l.synced);
    var lines := SortLines(l.synced);
    assert AllStampable(lines) <==> (forall line | line in l.synced :: Stampable(line)) by {
      assert forall line :: line in lines <==> line in l.synced by {
        forall line ensures line in lines <==> line in l.synced {
          assert line in lines <==> line in multiset(lines);
          assert line in l.synced <==> line in multiset(l.synced);
        }
      }
    }
  }
}
