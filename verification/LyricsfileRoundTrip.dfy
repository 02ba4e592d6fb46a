/** The Lyricsfile encoder and decoder undo each other. */
module LyricsfileRoundTrip {
  import opened Wrappers
  import opened Rounding
  import opened Text
  import opened LyricsTypes
  import opened LyricsfileDocument
  import opened Lyricsfile

  /** A word the format can hold. */
  predicate FaithfulWord(w: Word) {
    && Whole(w.start)
    && Whole(w.end)
    && (w.end != 0.0 ==> w.end >= w.start)
  }

  /** A line the format can hold: whole stamps, and words that spell its text and do not start before it. */
  predicate Faithful(line: Line) {
    && Whole(line.start)
    && Whole(line.end)
    && (line.words != [] ==>
          && JoinWords(line.words) == line.text
          && !Blank(line.text)
          && forall i | 0 <= i < |line.words| :: FaithfulWord(line.words[i]) && line.words[i].start >= line.start)
  }

  /** The decoder takes the line back: its start and, if they are written, those of its words fit. */
  predicate Readable(line: Line) {
    && Fits(line.start)
    && (SpansOf(line.words, LineText(line)).Some? ==> forall i | 0 <= i < |line.words| :: Fits(line.words[i].start))
  }

  /** What the format drops. */
  function Bare(line: Line): Line {
    line.(voice := "", background := false, group := 0)
  }

  function Bares(lines: seq<Line>): seq<Line> {
    seq(|lines|, i requires 0 <= i < |lines| => Bare(lines[i]))
  }

  /** The stamps are small enough to write down; an end that is not is refused with its line, or drops its words. */
  predicate StampsFit(line: Line) {
    Fits(line.start) && forall i | 0 <= i < |line.words| :: Fits(line.words[i].start) && Fits(line.words[i].end)
  }

  predicate Storable(line: Line) {
    Faithful(line) && StampsFit(line)
  }

  // ---------------------------------------------------------------- one word, one line

  lemma WordComesBack(w: Word)
    requires SpanOf(w).Some? && Fits(w.start)
    ensures TimingOf(SpanOf(w).value).Some? && SpanOf(w).value.text == w.text
    ensures FaithfulWord(w) ==> WordOf(SpanOf(w).value) == w
  {
    StampsComeBack(w.start);
    if w.end != 0.0 { StampsComeBack(w.end); }
  }

  lemma {:induction false} JoinedFromSpans(words: seq<Word>, spans: seq<Span>, back: seq<Word>)
    requires |words| == |spans| == |back|
    requires forall i | 0 <= i < |words| :: SpanOf(words[i]) == Some(spans[i]) && Fits(words[i].start)
    requires forall i | 0 <= i < |words| :: TimingOf(spans[i]).Some? && back[i] == WordOf(spans[i])
    ensures JoinWords(back) == JoinWords(words)
  {
    if words != [] {
      var last := |words| - 1;
      WordComesBack(words[last]);
      JoinedFromSpans(words[..last], spans[..last], back[..last]);
    }
  }

  lemma WordsComeBack(words: seq<Word>, text: string)
    requires SpansOf(words, text).Some? && forall i | 0 <= i < |words| :: Fits(words[i].start)
    ensures var spans := SpansOf(words, text).value;
            && |spans| == |words|
            && (forall i | 0 <= i < |spans| :: TimingOf(spans[i]).Some?)
            && JoinWords(WordsOf(spans)) == text
            && ((forall i | 0 <= i < |words| :: FaithfulWord(words[i])) ==> WordsOf(spans) == words)
  {
    var spans := SpansOf(words, text).value;
    forall i | 0 <= i < |words|
      ensures TimingOf(spans[i]).Some? && (FaithfulWord(words[i]) ==> WordOf(spans[i]) == words[i])
    {
      WordComesBack(words[i]);
    }
    JoinedFromSpans(words, spans, WordsOf(spans));
  }

  lemma {:induction false} EarliestSpanAtMost(start: int, spans: seq<Span>)
    ensures EarliestSpan(start, spans) <= start
    ensures start >= 0 && (forall i | 0 <= i < |spans| :: TimingOf(spans[i]).Some?) ==> 0 <= EarliestSpan(start, spans)
    ensures forall i | 0 <= i < |spans| && spans[i].startMs.Some? ::
              EarliestSpan(start, spans) <= spans[i].startMs.value
    ensures (forall i | 0 <= i < |spans| && spans[i].startMs.Some? :: start <= spans[i].startMs.value)
            ==> EarliestSpan(start, spans) == start
  {
    if spans != [] { EarliestSpanAtMost(start, spans[..|spans| - 1]); }
  }

  lemma {:induction false} NoEarlierWord(start: real, words: seq<Word>)
    requires forall i | 0 <= i < |words| :: start <= words[i].start
    ensures EarliestWord(start, words) == start
  {
    if words != [] { NoEarlierWord(start, words[..|words| - 1]); }
  }

  function WrittenEnd(line: Line): Option<int> {
    if line.end == 0.0 then None else StampMs(line.end)
  }

  /** The span of a stampable line can be timed, even when its words move its start forward. */
  lemma SpanIsTimed(line: Line, text: string, start: int)
    requires Stampable(line) && 0 <= start <= StampMs(line.start).value
    ensures TimingOf(Span(text, Some(start), WrittenEnd(line)))
         == Some(Timing(Milliseconds(start), if line.end == 0.0 then 0.0 else Milliseconds(StampMs(line.end).value)))
  {
  }

  /** What a line with words decodes to. */
  lemma WordedLine(d: DocumentLine, t: Timing, words: seq<Word>)
    requires TimingOf(d.span) == Some(t) && WordsOf(d.words) == words
    requires JoinWords(words) == d.span.text && !Blank(d.span.text)
    ensures LineOf(d) == Some(Line(EarliestWord(t.start, words), t.end, d.span.text, words, "", false, 0))
  {
  }

  /** The document line of a line whose words are written. */
  lemma LineWithWords(line: Line, spans: seq<Span>)
    requires Stampable(line) && Readable(line) && SpansOf(line.words, LineText(line)) == Some(spans)
    ensures |spans| == |line.words| && !Blank(LineText(line)) && JoinWords(WordsOf(spans)) == LineText(line)
    ensures 0 <= EarliestSpan(StampMs(line.start).value, spans) <= StampMs(line.start).value
    ensures DocumentLineOf(line) == DocumentLine(Span(LineText(line),
                                                      Some(EarliestSpan(StampMs(line.start).value, spans)),
                                                      WrittenEnd(line)), spans)
  {
    StampsComeBack(line.start);
    WordsComeBack(line.words, LineText(line));
    EarliestSpanAtMost(StampMs(line.start).value, spans);
  }

  lemma LineWithWordsIsAccepted(line: Line, spans: seq<Span>)
    requires Stampable(line) && Readable(line) && SpansOf(line.words, LineText(line)) == Some(spans)
    ensures LineOf(DocumentLineOf(line)).Some?
  {
    LineWithWords(line, spans);
    SpanIsTimed(line, LineText(line), EarliestSpan(StampMs(line.start).value, spans));
  }

  /** The words of a faithful line do not move its start. */
  lemma FaithfulStartStays(line: Line, spans: seq<Span>)
    requires Stampable(line) && Storable(line) && SpansOf(line.words, LineText(line)) == Some(spans)
    ensures EarliestSpan(StampMs(line.start).value, spans) == StampMs(line.start).value
  {
    var start := StampMs(line.start).value;
    StampsComeBack(line.start);
    WordsComeBack(line.words, LineText(line));
    forall i | 0 <= i < |spans| && spans[i].startMs.Some? ensures start <= spans[i].startMs.value {
      assert spans[i] == SpanOf(line.words[i]).value;
      assert line.words[i].start >= line.start;
      RoundedKeepsOrder(line.start * 1000.0, line.words[i].start * 1000.0);
    }
    EarliestSpanAtMost(start, spans);
  }

  lemma FaithfulWordsComeBack(line: Line, spans: seq<Span>)
    requires Storable(line) && SpansOf(line.words, LineText(line)) == Some(spans)
    ensures WordsOf(spans) == line.words && LineText(line) == line.text
    ensures forall i | 0 <= i < |line.words| :: line.start <= line.words[i].start
  {
    WordsComeBack(line.words, LineText(line));
  }

  lemma FaithfulLineComesBack(line: Line, spans: seq<Span>)
    requires Stampable(line) && Storable(line) && SpansOf(line.words, LineText(line)) == Some(spans)
    ensures LineOf(DocumentLineOf(line)) == Some(Bare(line))
  {
    LineWithWords(line, spans);
    FaithfulStartStays(line, spans);
    var start := StampMs(line.start).value;
    SpanIsTimed(line, LineText(line), start);
    StampsComeBack(line.start);
    if line.end != 0.0 { StampsComeBack(line.end); }
    FaithfulWordsComeBack(line, spans);
    NoEarlierWord(line.start, line.words);
    WordedLine(DocumentLineOf(line), Timing(line.start, line.end), line.words);
  }

  lemma LineWithoutWords(line: Line)
    requires Stampable(line) && Fits(line.start) && SpansOf(line.words, LineText(line)) == None
    ensures LineOf(DocumentLineOf(line)).Some?
    ensures Faithful(line) && line.words == [] ==> LineOf(DocumentLineOf(line)) == Some(Bare(line))
  {
    StampsComeBack(line.start);
    if line.end != 0.0 { StampsComeBack(line.end); }
  }

  lemma NegativeStartIsRefused(line: Line)
    requires Stampable(line) && DocumentLineOf(line).span.startMs.value < 0
    ensures LineOf(DocumentLineOf(line)) == None
  {
  }

  /** The start of a line is written as a negative number when it, or that of a word, does not fit. */
  lemma UnreadableIsRefused(line: Line)
    requires Stampable(line) && !Readable(line)
    ensures LineOf(DocumentLineOf(line)) == None
  {
    StampsComeBack(line.start);
    if spans: seq<Span> :| SpansOf(line.words, LineText(line)) == Some(spans) {
      EarliestSpanAtMost(StampMs(line.start).value, spans);
      if i :| 0 <= i < |line.words| && !Fits(line.words[i].start) {
        StampsComeBack(line.words[i].start);
        assert spans[i] == SpanOf(line.words[i]).value;
      }
    }
    NegativeStartIsRefused(line);
  }

  lemma StorableWordsAreWritten(line: Line)
    requires Storable(line) && line.words != []
    ensures SpansOf(line.words, LineText(line)).Some?
  {
  }

  lemma LineIsAccepted(line: Line)
    requires Stampable(line)
    ensures LineOf(DocumentLineOf(line)).Some? <==> Readable(line)
    ensures |DocumentLineOf(line).words| <= |line.words|
  {
    if Readable(line) {
      match SpansOf(line.words, LineText(line))
      case Some(spans) => LineWithWordsIsAccepted(line, spans);
      case None => LineWithoutWords(line);
    } else {
      UnreadableIsRefused(line);
    }
  }

  lemma LineComesBack(line: Line)
    requires Stampable(line) && Storable(line)
    ensures LineOf(DocumentLineOf(line)) == Some(Bare(line))
  {
    if line.words != [] {
      StorableWordsAreWritten(line);
      FaithfulLineComesBack(line, SpansOf(line.words, LineText(line)).value);
    } else {
      LineWithoutWords(line);
    }
  }

  // ---------------------------------------------------------------- all the lines

  lemma {:induction false} SpansAtMostWords(ds: seq<DocumentLine>, lines: seq<Line>)
    requires |ds| == |lines| && forall i | 0 <= i < |ds| :: |ds[i].words| <= |lines[i].words|
    ensures SpanTotal(ds) <= WordTotal(lines)
  {
    if ds != [] { SpansAtMostWords(ds[..|ds| - 1], lines[..|ds| - 1]); }
  }

  lemma {:induction false} AllAreAccepted(ds: seq<DocumentLine>)
    requires SpanTotal(ds) <= MAX_WORDS && forall i | 0 <= i < |ds| :: LineOf(ds[i]).Some?
    ensures LinesOf(ds).Ok? && |LinesOf(ds).value| == |ds|
  {
    if ds != [] { AllAreAccepted(ds[..|ds| - 1]); }
  }

  lemma {:induction false} AcceptedOneByOne(ds: seq<DocumentLine>, i: nat)
    requires LinesOf(ds).Ok? && i < |ds|
    ensures LineOf(ds[i]).Some?
  {
    if i < |ds| - 1 { AcceptedOneByOne(ds[..|ds| - 1], i); }
  }

  lemma LinesAreAccepted(lines: seq<Line>)
    requires AllStampable(lines) && forall i | 0 <= i < |lines| :: Readable(lines[i])
    requires WordTotal(lines) <= MAX_WORDS
    ensures LinesOf(DocumentLinesOf(lines)).Ok? && |LinesOf(DocumentLinesOf(lines)).value| == |lines|
  {
    var ds := DocumentLinesOf(lines);
    forall i | 0 <= i < |ds| ensures LineOf(ds[i]).Some? && |ds[i].words| <= |lines[i].words| {
      LineIsAccepted(lines[i]);
    }
    SpansAtMostWords(ds, lines);
    AllAreAccepted(ds);
  }

  lemma LineIsRefused(lines: seq<Line>, i: nat)
    requires AllStampable(lines) && i < |lines| && !Readable(lines[i])
    ensures LinesOf(DocumentLinesOf(lines)).Err?
  {
    LineIsAccepted(lines[i]);
    if LinesOf(DocumentLinesOf(lines)).Ok? { AcceptedOneByOne(DocumentLinesOf(lines), i); }
  }

  lemma OneMoreDecoded(ds: seq<DocumentLine>, n: nat, line: Line)
    requires 0 < n <= |ds| && LinesOf(ds[..n]).Ok? && LineOf(ds[n - 1]) == Some(line)
    ensures LinesOf(ds[..n - 1]).Ok? && LinesOf(ds[..n]).value == LinesOf(ds[..n - 1]).value + [line]
  {
    assert ds[..n][..n - 1] == ds[..n - 1] && ds[..n][n - 1] == ds[n - 1];
  }

  lemma {:induction false} LinesAreDecoded(ds: seq<DocumentLine>, lines: seq<Line>, n: nat)
    requires n <= |ds| == |lines| && LinesOf(ds[..n]).Ok?
    requires forall i | 0 <= i < n :: LineOf(ds[i]) == Some(lines[i])
    ensures |LinesOf(ds[..n]).value| == n
    ensures forall i | 0 <= i < n :: LinesOf(ds[..n]).value[i] == lines[i]
  {
    if n > 0 {
      OneMoreDecoded(ds, n, lines[n - 1]);
      LinesAreDecoded(ds, lines, n - 1);
    }
  }

  lemma AllLinesAreDecoded(ds: seq<DocumentLine>, lines: seq<Line>)
    requires |ds| == |lines| && LinesOf(ds).Ok? && forall i | 0 <= i < |ds| :: LineOf(ds[i]) == Some(lines[i])
    ensures LinesOf(ds) == Ok(lines)
  {
    assert ds[..|ds|] == ds;
    LinesAreDecoded(ds, lines, |ds|);
    assert LinesOf(ds).value == lines;
  }

  lemma StorableLinesAreAccepted(lines: seq<Line>)
    requires AllStampable(lines) && WordTotal(lines) <= MAX_WORDS
    requires forall i | 0 <= i < |lines| :: Storable(lines[i])
    ensures LinesOf(DocumentLinesOf(lines)).Ok?
  {
    forall i | 0 <= i < |lines| ensures Readable(lines[i]) { assert Storable(lines[i]); }
    LinesAreAccepted(lines);
  }

  lemma LinesComeBack(lines: seq<Line>)
    requires AllStampable(lines)
    requires forall i | 0 <= i < |lines| :: Storable(lines[i])
    requires WordTotal(lines) <= MAX_WORDS
    ensures LinesOf(DocumentLinesOf(lines)) == Ok(Bares(lines))
  {
    StorableLinesAreAccepted(lines);
    var ds, bares := DocumentLinesOf(lines), Bares(lines);
    forall i | 0 <= i < |lines| ensures LineOf(ds[i]) == Some(bares[i]) {
      LineComesBack(lines[i]);
    }
    AllLinesAreDecoded(ds, bares);
  }

  /** Sorting keeps the lines that were there. */
  lemma SortKeepsMembers(lines: seq<Line>)
    ensures forall line :: line in SortLines(lines) <==> line in lines
  {
    SortLinesIsStable(lines);
    forall line ensures line in SortLines(lines) <==> line in lines {
      assert line in SortLines(lines) <==> line in multiset(SortLines(lines));
      assert line in lines <==> line in multiset(lines);
    }
  }

  lemma {:induction false} InsertKeepsTotal(lines: seq<Line>, line: Line)
    ensures WordTotal(InsertLine(lines, line)) == WordTotal(lines) + |line.words|
  {
    var r := InsertLine(lines, line);
    if lines == [] || lines[|lines| - 1].start <= line.start {
      assert r[..|r| - 1] == lines;
    } else {
      InsertKeepsTotal(lines[..|lines| - 1], line);
      assert r[..|r| - 1] == InsertLine(lines[..|lines| - 1], line);
    }
  }

  lemma {:induction false} SortKeepsTotal(lines: seq<Line>)
    ensures WordTotal(SortLines(lines)) == WordTotal(lines)
  {
    if lines != [] {
      SortKeepsTotal(lines[..|lines| - 1]);
      InsertKeepsTotal(SortLines(lines[..|lines| - 1]), lines[|lines| - 1]);
    }
  }

  // ---------------------------------------------------------------- whole documents

  /** What an encoded document holds. */
  lemma EncodedParts(l: Lyrics)
    requires l.raw == None && !l.instrumental && Encode(l).Ok?
    ensures var lines := SortLines(l.synced);
            && AllStampable(lines)
            && |lines| == |l.synced| <= MAX_LINES && WordTotal(lines) <= MAX_WORDS
            && Count(WrittenPlain(l), '\n') + 1 <= MAX_LINES
            && Encode(l) == Ok(Document("1.0", l.title, l.artist, l.album, l.durationMs, false,
                                        DocumentLinesOf(lines), WrittenPlain(l)))
  {
    SortLinesIsStable(l.synced);
    SortKeepsTotal(l.synced);
  }

  /** What a document of this shape decodes to. */
  lemma DecodedParts(d: Document, lines: seq<Line>)
    requires d.version == "1.0" && !d.instrumental && |d.lines| <= MAX_LINES && Count(d.plain, '\n') + 1 <= MAX_LINES
    requires LinesOf(d.lines) == Ok(lines)
    ensures Decode(d) == Ok(Lyrics(SortLines(lines), PlainOr(d.plain, SortLines(lines)), false,
                                   d.title, d.artist, d.album, d.durationMs, SourceLyricsfile, Some(d)))
  {
  }

  lemma UnreadableDocument(d: Document)
    requires d.version == "1.0" && !d.instrumental && LinesOf(d.lines).Err?
    ensures Decode(d).Err?
  {
  }

  /** A document the encoder builds is one the decoder accepts exactly when every start in it fits; then the track's
      own fields survive. */
  lemma BuiltDocumentsAreAccepted(l: Lyrics)
    requires l.raw == None && Encode(l).Ok?
    ensures Decode(Encode(l).value).Ok? <==> l.instrumental || forall line | line in l.synced :: Readable(line)
    ensures Decode(Encode(l).value).Ok? ==>
              var back := Decode(Encode(l).value).value;
              && back.title == l.title && back.artist == l.artist && back.album == l.album
              && back.durationMs == l.durationMs && back.instrumental == l.instrumental
              && |back.synced| == (if l.instrumental then 0 else |l.synced|)
              && (!l.instrumental && l.plain != "" ==> back.plain == l.plain)
  {
    if !l.instrumental {
      EncodedParts(l);
      var d, lines := Encode(l).value, SortLines(l.synced);
      SortKeepsMembers(l.synced);
      if forall line | line in l.synced :: Readable(line) {
        forall i | 0 <= i < |lines| ensures Readable(lines[i]) { assert lines[i] in lines; }
        LinesAreAccepted(lines);
        DecodedParts(d, LinesOf(d.lines).value);
        SortLinesIsStable(LinesOf(d.lines).value);
      } else {
        var i :| 0 <= i < |lines| && !Readable(lines[i]);
        LineIsRefused(lines, i);
        UnreadableDocument(d);
      }
    }
  }

  /** One line that starts at the limit: it is written, and the document is refused. */
  lemma LimitIsWrittenButNotRead(title: string, artist: string, source: SourceFormat)
    requires title != "" && artist != ""
    ensures var l := Lyrics([Line(MAX_SECONDS, 0.0, "la", [], "", false, 0)], "la", false, title, artist, "", 0, source,
                            None);
            Encode(l).Ok? && Decode(Encode(l).value) == Err(Malformed)
  {
    var line := Line(MAX_SECONDS, 0.0, "la", [], "", false, 0);
    var l := Lyrics([line], "la", false, title, artist, "", 0, source, None);
    SortedStays([line]);
    assert StampMs(MAX_SECONDS) == Some(-MAX_INT64 - 1) by { RoundedWhole(9223372036854776000); }
    assert WordTotal([line][..0]) == 0;
    assert Count("la", '\n') == 0 by { assert "la"[..1] == ['l'] && ['l'][..0] == []; }
    var d := Encode(l).value;
    UnreadableIsRefused(line);
    assert d.lines == [DocumentLineOf(line)] && LinesOf(d.lines[..0]) == Ok([]);
  }

  /** Exactly which lyrics can be written down. */
  lemma WritableExactlyWhen(l: Lyrics)
    requires l.raw == None
    ensures Encode(l).Ok? <==>
            && l.title != "" && l.artist != "" && l.durationMs >= 0
            && (l.instrumental
                || (&& |l.synced| <= MAX_LINES && WordTotal(l.synced) <= MAX_WORDS
                    && (forall line | line in l.synced :: Stampable(line))
                    && Count(WrittenPlain(l), '\n') < MAX_LINES))
  {
    SortKeepsMembers(l.synced);
    var lines := SortLines(l.synced);
    assert AllStampable(lines) <==> (forall line | line in lines :: Stampable(line));
  }

  lemma WrittenTextsAreTexts(lines: seq<Line>)
    requires forall i | 0 <= i < |lines| :: Storable(lines[i])
    ensures TextsOf(Bares(lines)) == TextsOf(lines) == WrittenTexts(lines)
  {
  }

  lemma {:induction false} BaresStaySorted(lines: seq<Line>)
    requires SortedByStart(lines)
    ensures SortLines(Bares(lines)) == Bares(lines)
  {
    SortedStays(Bares(lines));
  }

  /** Lyrics the format can hold come back whole: every line and word with its stamps, in order, the
      metadata, and the plain text when there is one. */
  lemma DecodeUndoesEncode(l: Lyrics)
    requires l.raw == None && !l.instrumental && Encode(l).Ok?
    requires forall i | 0 <= i < |l.synced| :: Storable(l.synced[i])
    ensures var document := Encode(l).value;
            Decode(document) == Ok(Lyrics(Bares(SortLines(l.synced)), PlainOr(l.plain, SortLines(l.synced)), false,
                                          l.title, l.artist, l.album, l.durationMs, SourceLyricsfile, Some(document)))
  {
    var lines := SortLines(l.synced);
    EncodedParts(l);
    SortLinesIsStable(l.synced);
    SortKeepsMembers(l.synced);
    forall i | 0 <= i < |lines| ensures Storable(lines[i]) {
      assert lines[i] in lines;
      assert lines[i] in l.synced;
    }
    LinesComeBack(lines);
    BaresStaySorted(lines);
    WrittenTextsAreTexts(lines);
    DecodedParts(Encode(l).value, Bares(lines));
  }

  // ---------------------------------------------------------------- what a decoder returns can be written back

  lemma DecodedWordIsFaithful(s: Span)
    requires TimingOf(s).Some?
    ensures FaithfulWord(WordOf(s))
  {
    MillisecondsAreWhole(s.startMs.value);
    MillisecondsAreWhole(0);
    if s.endMs.Some? { MillisecondsAreWhole(s.endMs.value); }
  }

  lemma {:induction false} EarliestWordIsEarliest(start: real, words: seq<Word>)
    requires Whole(start) && forall i | 0 <= i < |words| :: Whole(words[i].start)
    ensures Whole(EarliestWord(start, words)) && EarliestWord(start, words) <= start
    ensures forall i | 0 <= i < |words| :: EarliestWord(start, words) <= words[i].start
  {
    if words != [] { EarliestWordIsEarliest(start, words[..|words| - 1]); }
  }

  lemma DecodedLineIsFaithful(d: DocumentLine)
    requires LineOf(d).Some?
    ensures Faithful(LineOf(d).value) && Bare(LineOf(d).value) == LineOf(d).value
  {
    DecodedWordIsFaithful(d.span);
    var words := WordsOf(d.words);
    forall i | 0 <= i < |words| ensures FaithfulWord(words[i]) { DecodedWordIsFaithful(d.words[i]); }
    EarliestWordIsEarliest(TimingOf(d.span).value.start, words);
  }

  lemma {:induction false} DecodedLinesAreFaithful(lines: seq<DocumentLine>)
    requires LinesOf(lines).Ok?
    ensures forall line | line in LinesOf(lines).value :: Faithful(line) && Bare(line) == line
  {
    if lines != [] {
      DecodedLinesAreFaithful(lines[..|lines| - 1]);
      DecodedLineIsFaithful(lines[|lines| - 1]);
    }
  }

  lemma DecodedLyricsAreFaithful(d: Document)
    requires Decode(d).Ok?
    ensures SortedByStart(Decode(d).value.synced)
    ensures forall line | line in Decode(d).value.synced :: Faithful(line) && Bare(line) == line
  {
    if !d.instrumental {
      var lines := LinesOf(d.lines).value;
      DecodedLinesAreFaithful(d.lines);
      SortLinesIsStable(lines);
      forall line | line in SortLines(lines) ensures line in lines { assert line in multiset(lines); }
    }
  }

  /** Lyrics in order, without what the format drops, and with their plain text come back as they are. */
  lemma BareLyricsComeBack(l: Lyrics)
    requires l.raw == None && !l.instrumental && Encode(l).Ok? && l.source == SourceLyricsfile
    requires SortedByStart(l.synced) && forall line | line in l.synced :: Storable(line) && Bare(line) == line
    requires l.plain == PlainOr(l.plain, l.synced)
    ensures Decode(Encode(l).value) == Ok(l.(raw := Some(Encode(l).value)))
  {
    SortedStays(l.synced);
    assert Bares(l.synced) == l.synced by {
      forall i | 0 <= i < |l.synced| ensures Bare(l.synced[i]) == l.synced[i] { assert l.synced[i] in l.synced; }
    }
    DecodeUndoesEncode(l);
  }

  /** Lyrics read from a document and written anew, without the document they came from, read back the same;
      stamps that are too large to write down are the one exception. */
  lemma DecodedLyricsComeBack(d: Document)
    requires Decode(d).Ok? && Encode(Decode(d).value.(raw := None)).Ok?
    requires forall line | line in Decode(d).value.synced :: StampsFit(line)
    ensures var l := Decode(d).value;
            var document := Encode(l.(raw := None)).value;
            Decode(document) == Ok(l.(raw := Some(document)))
  {
    var l := Decode(d).value;
    DecodedLyricsAreFaithful(d);
    if !l.instrumental { BareLyricsComeBack(l.(raw := None)); }
  }

  /** Lyrics that still have their document are written as that very document. */
  lemma SourceIsReturnedVerbatim(d: Document)
    requires Decode(d).Ok?
    ensures Encode(Decode(d).value) == Ok(d)
  {
  }
}
