/** The loops of lyrics/lyricsfile.go, against the functions of Lyricsfile. */
module LyricsfileCodec {
  import opened Wrappers
  import opened Text
  import opened LyricsTypes
  import opened LyricsfileDocument
  import opened Lyricsfile

  method LyricsfileWords(source: seq<Span>) returns (words: seq<Word>)
    ensures words == WordsOf(source)
  {
    words := [];
    for i := 0 to |source|
      invariant |words| == i
      invariant forall k | 0 <= k < i :: TimingOf(source[k]).Some? && words[k] == WordOf(source[k])
    {
      var timing := TimingOf(source[i]);
      if timing == None { return []; }
      words := words + [Word(timing.value.start, timing.value.end, source[i].text)];
    }
  }

  method LyricsfileSpans(words: seq<Word>, lineText: string) returns (spans: Option<seq<Span>>)
    ensures spans == SpansOf(words, lineText)
  {
    if |words| == 0 { return None; }
    var joined := JoinWords(words);
    if joined != lineText || TrimSpace(joined) == "" { return None; }
    var done := [];
    for i := 0 to |words|
      invariant |done| == i
      invariant forall k | 0 <= k < i :: SpanOf(words[k]) == Some(done[k])
    {
      var start := StampMs(words[i].start);
      if start == None { return None; }
      var span := Span(words[i].text, start, None);
      if words[i].end != 0.0 {
        var end := StampMs(words[i].end);
        if end == None || end.value < start.value { return None; }
        span := span.(endMs := end);
      }
      done := done + [span];
    }
    assert done == SpansOf(words, lineText).value;
    return Some(done);
  }

  /** One turn of the decoder's loop after the checks. */
  method DecodeLine(source: DocumentLine, timing: Timing) returns (line: Line)
    requires TimingOf(source.span) == Some(timing)
    ensures LineOf(source) == Some(line)
  {
    line := Line(timing.start, timing.end, source.span.text, [], "", false, 0);
    var words := LyricsfileWords(source.words);
    var wordsText := JoinWords(words);
    if line.text == "" { line := line.(text := wordsText); }
    if wordsText == line.text && TrimSpace(wordsText) != "" {
      line := line.(words := words);
      for i := 0 to |words|
        invariant line == Line(EarliestWord(timing.start, words[..i]), timing.end, line.text, words, "", false, 0)
        invariant line.text == wordsText
      {
        assert words[..i + 1][..i] == words[..i];
        if words[i].start < line.start { line := line.(start := words[i].start); }
      }
      assert words[..|words|] == words;
    }
  }

  lemma {:induction false} FailureStays(lines: seq<DocumentLine>, i: nat)
    requires i <= |lines| && LinesOf(lines[..i]).Err?
    ensures LinesOf(lines) == LinesOf(lines[..i])
    decreases |lines| - i
  {
    if i < |lines| {
      assert lines[..i + 1][..i] == lines[..i];
      FailureStays(lines, i + 1);
    } else {
      assert lines[..i] == lines;
    }
  }

  lemma OneMoreLine(lines: seq<DocumentLine>, i: nat)
    requires i < |lines| && LinesOf(lines[..i]).Ok?
    ensures SpanTotal(lines[..i + 1]) == SpanTotal(lines[..i]) + |lines[i].words|
    ensures LineOf(lines[i]).Some? <==> TimingOf(lines[i].span).Some?
    ensures var next := LinesOf(lines[..i + 1]);
            if LineOf(lines[i]) == None then next == Err(Malformed) && LinesOf(lines) == next
            else if SpanTotal(lines[..i + 1]) > MAX_WORDS then next == Err(TooLarge) && LinesOf(lines) == next
            else next == Ok(LinesOf(lines[..i]).value + [LineOf(lines[i]).value])
  {
    assert lines[..i + 1][..i] == lines[..i];
    if LinesOf(lines[..i + 1]).Err? { FailureStays(lines, i + 1); }
  }

  method DecodeLines(lines: seq<DocumentLine>) returns (r: Result<seq<Line>>)
    ensures r == LinesOf(lines)
  {
    var wordCount := 0;
    var synced := [];
    for i := 0 to |lines|
      invariant wordCount == SpanTotal(lines[..i]) && LinesOf(lines[..i]) == Ok(synced)
    {
      OneMoreLine(lines, i);
      var timing := TimingOf(lines[i].span);
      if timing == None { return Err(Malformed); }
      wordCount := wordCount + |lines[i].words|;
      if wordCount > MAX_WORDS { return Err(TooLarge); }
      var line := DecodeLine(lines[i], timing.value);
      synced := synced + [line];
    }
    assert lines[..|lines|] == lines;
    return Ok(synced);
  }

  method ParseLyricsfile(document: Document) returns (r: Result<Lyrics>)
    ensures r == Decode(document)
  {
    if document.version != "1.0" { return Err(Malformed); }
    var result := Lyrics([], "", false, document.title, document.artist, document.album, document.durationMs,
                         SourceLyricsfile, Some(document));
    if document.instrumental { return Ok(result.(instrumental := true)); }
    if |document.lines| > MAX_LINES || Count(document.plain, '\n') + 1 > MAX_LINES { return Err(TooLarge); }
    result := result.(plain := document.plain);
    var lines := DecodeLines(document.lines);
    if lines.Err? { return Err(lines.error); }
    result := result.(synced := SortLines(lines.value));
    if result.plain == "" {
      var plain := [];
      for i := 0 to |result.synced|
        invariant plain == TextsOf(result.synced[..i])
      {
        plain := plain + [result.synced[i].text];
      }
      assert result.synced[..|result.synced|] == result.synced;
      result := result.(plain := Join(plain, "\n"));
    }
    return Ok(result);
  }

  // ---------------------------------------------------------------- encoding

  /** One turn of the encoder's loop. */
  method EncodeLine(line: Line) returns (entry: Option<DocumentLine>)
    ensures entry.Some? <==> Stampable(line)
    ensures entry.Some? ==> entry.value == DocumentLineOf(line)
  {
    var stamp := StampMs(line.start);
    if stamp == None { return None; }
    var start := stamp.value;
    var text := line.text;
    if text == "" { text := JoinWords(line.words); }
    var span := Span(text, None, None);
    var words := [];
    if line.end != 0.0 {
      var end := StampMs(line.end);
      if end == None || end.value < start { return None; }
      span := span.(endMs := end);
    }
    var spans := LyricsfileSpans(line.words, text);
    if spans.Some? {
      for i := 0 to |spans.value|
        invariant start == EarliestSpan(stamp.value, spans.value[..i])
      {
        assert spans.value[..i + 1][..i] == spans.value[..i];
        assert spans.value[i] == SpanOf(line.words[i]).value;
        if spans.value[i].startMs.value < start { start := spans.value[i].startMs.value; }
      }
      assert spans.value[..|spans.value|] == spans.value;
      words := spans.value;
    }
    return Some(DocumentLine(span.(startMs := Some(start)), words));
  }

  method EncodeLines(lines: seq<Line>) returns (entries: Option<seq<DocumentLine>>, texts: seq<string>)
    ensures entries.Some? <==> AllStampable(lines)
    ensures entries.Some? ==> entries.value == DocumentLinesOf(lines) && texts == WrittenTexts(lines)
  {
    var done := [];
    texts := [];
    for i := 0 to |lines|
      invariant |done| == i == |texts|
      invariant forall k | 0 <= k < i ::
                  Stampable(lines[k]) && done[k] == DocumentLineOf(lines[k]) && texts[k] == LineText(lines[k])
    {
      var entry := EncodeLine(lines[i]);
      if entry == None { return None, []; }
      texts := texts + [entry.value.span.text];
      done := done + [entry.value];
    }
    return Some(done), texts;
  }

  lemma {:induction false} WordsOnlyGrow(lines: seq<Line>, i: nat)
    requires i <= |lines|
    ensures WordTotal(lines[..i]) <= WordTotal(lines)
    decreases |lines| - i
  {
    if i < |lines| {
      assert lines[..i + 1][..i] == lines[..i];
      WordsOnlyGrow(lines, i + 1);
    } else {
      assert lines[..i] == lines;
    }
  }

  /** No lyrics at all are refused; lyrics with their document are written as it, the rest anew. */
  method AsLyricsfile(l: Option<Lyrics>) returns (r: Result<Document>)
    ensures r == if l == None then Err(Malformed) else Encode(l.value)
  {
    if l == None { return Err(Malformed); }
    var lyrics := l.value;
    if lyrics.source == SourceLyricsfile && lyrics.raw.Some? { return Ok(lyrics.raw.value); }
    if lyrics.title == "" || lyrics.artist == "" || lyrics.durationMs < 0 { return Err(Malformed); }
    var document := Document("1.0", lyrics.title, lyrics.artist, lyrics.album, lyrics.durationMs, lyrics.instrumental,
                             [], "");
    if lyrics.instrumental { return Ok(document); }
    if |lyrics.synced| > MAX_LINES { return Err(TooLarge); }
    var wordCount := 0;
    for i := 0 to |lyrics.synced|
      invariant wordCount == WordTotal(lyrics.synced[..i]) && wordCount <= MAX_WORDS
    {
      assert lyrics.synced[..i + 1][..i] == lyrics.synced[..i];
      wordCount := wordCount + |lyrics.synced[i].words|;
      if wordCount > MAX_WORDS {
        WordsOnlyGrow(lyrics.synced, i + 1);
        return Err(TooLarge);
      }
    }
    assert lyrics.synced[..|lyrics.synced|] == lyrics.synced;
    var lines := SortLines(lyrics.synced);
    var entries, texts := EncodeLines(lines);
    if entries == None { return Err(Malformed); }
    var plain := lyrics.plain;
    if plain == "" { plain := Join(texts, "\n"); }
    if Count(plain, '\n') + 1 > MAX_LINES { return Err(TooLarge); }
    return Ok(document.(lines := entries.value, plain := plain));
  }
}
