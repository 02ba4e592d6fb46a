/** The Lyricsfile encoder and decoder of lyrics/lyricsfile.go, from lyrics to document and back. Stamps are
    exact numbers of seconds. */
module Lyricsfile {
  import opened Wrappers
  import opened Rounding
  import opened Text
  import opened LyricsTypes
  import opened LyricsfileDocument

  const MAX_LINES := 2000
  const MAX_WORDS := 16000
  const MAX_INT64 := 0x7FFF_FFFF_FFFF_FFFF

  /** The limit of the encoder's guard, MAX_INT64 / 1000 as a float64: it is rounded up, to an even number. */
  const MAX_SECONDS := 9223372036854776.0

  datatype Error = Malformed | TooLarge

  datatype Result<T> = Ok(value: T) | Err(error: Error)

  datatype Timing = Timing(start: real, end: real)

  // ---------------------------------------------------------------- stamps

  function Milliseconds(ms: int): real {
    ms as real / 1000.0
  }

  function TimingOf(s: Span): Option<Timing> {
    if s.startMs == None || s.startMs.value < 0 then None
    else if s.endMs == None then Some(Timing(Milliseconds(s.startMs.value), 0.0))
    else if s.endMs.value >= s.startMs.value then
      Some(Timing(Milliseconds(s.startMs.value), Milliseconds(s.endMs.value)))
    else None
  }

  /** A number of milliseconds as an int64; amd64 makes the least one of what is too large. */
  function ToInt64(ms: int): int {
    if ms > MAX_INT64 then -MAX_INT64 - 1 else ms
  }

  function StampMs(seconds: real): Option<int> {
    if seconds < 0.0 || seconds > MAX_SECONDS then None else Some(ToInt64(Rounded(seconds * 1000.0)))
  }

  /** The milliseconds are an int64. Of the float64 numbers that pass the guard, MAX_SECONDS alone does not fit. */
  predicate Fits(seconds: real) {
    Rounded(seconds * 1000.0) <= MAX_INT64
  }

  /** A whole number of milliseconds. */
  predicate Whole(seconds: real) {
    seconds >= 0.0 && Milliseconds(Rounded(seconds * 1000.0)) == seconds
  }

  lemma StampsComeBack(seconds: real)
    requires StampMs(seconds).Some?
    ensures StampMs(seconds).value >= 0 <==> Fits(seconds)
    ensures Fits(seconds) && Whole(seconds) ==> Milliseconds(StampMs(seconds).value) == seconds
  {
  }

  lemma MillisecondsAreWhole(ms: int)
    requires ms >= 0
    ensures Whole(Milliseconds(ms))
  {
    RoundedWhole(ms);
  }

  // ---------------------------------------------------------------- decoding

  function WordOf(s: Span): Word
    requires TimingOf(s).Some?
  {
    Word(TimingOf(s).value.start, TimingOf(s).value.end, s.text)
  }

  /** All the words, or none when one of them has no usable timing. */
  function WordsOf(spans: seq<Span>): (words: seq<Word>)
  {
    if forall i | 0 <= i < |spans| :: TimingOf(spans[i]).Some? then
      seq(|spans|, i requires 0 <= i < |spans| => WordOf(spans[i]))
    else []
  }

  predicate Blank(s: string) {
    TrimSpace(s) == ""
  }

  function EarliestWord(start: real, words: seq<Word>): real {
    if words == [] then start
    else
      var before := EarliestWord(start, words[..|words| - 1]);
      if words[|words| - 1].start < before then words[|words| - 1].start else before
  }

  function LineOf(d: DocumentLine): Option<Line> {
    match TimingOf(d.span)
    case None => None
    case Some(t) =>
      var words := WordsOf(d.words);
      var text := if d.span.text == "" then JoinWords(words) else d.span.text;
      if JoinWords(words) == text && !Blank(text) then
        Some(Line(EarliestWord(t.start, words), t.end, text, words, "", false, 0))
      else
        Some(Line(t.start, t.end, text, [], "", false, 0))
  }

  function SpanTotal(lines: seq<DocumentLine>): nat {
    if lines == [] then 0 else SpanTotal(lines[..|lines| - 1]) + |lines[|lines| - 1].words|
  }

  function LinesOf(lines: seq<DocumentLine>): Result<seq<Line>> {
    if lines == [] then Ok([])
    else
      var before, last := lines[..|lines| - 1], lines[|lines| - 1];
      if LinesOf(before).Err? then LinesOf(before)
      else if LineOf(last) == None then Err(Malformed)
      else if SpanTotal(lines) > MAX_WORDS then Err(TooLarge)
      else Ok(LinesOf(before).value + [LineOf(last).value])
  }

  function TextsOf(lines: seq<Line>): seq<string> {
    seq(|lines|, i requires 0 <= i < |lines| => lines[i].text)
  }

  function PlainOr(plain: string, lines: seq<Line>): string {
    if plain == "" then Join(TextsOf(lines), "\n") else plain
  }

  /** What a document says, or why it is refused. */
  function Decode(d: Document): Result<Lyrics> {
    if d.version != "1.0" then Err(Malformed)
    else if d.instrumental then
      Ok(Lyrics([], "", true, d.title, d.artist, d.album, d.durationMs, SourceLyricsfile, Some(d)))
    else if |d.lines| > MAX_LINES || Count(d.plain, '\n') + 1 > MAX_LINES then Err(TooLarge)
    else if LinesOf(d.lines).Err? then Err(LinesOf(d.lines).error)
    else
      var synced := SortLines(LinesOf(d.lines).value);
      Ok(Lyrics(synced, PlainOr(d.plain, synced), false, d.title, d.artist, d.album, d.durationMs,
                SourceLyricsfile, Some(d)))
  }

  // ---------------------------------------------------------------- encoding

  function SpanOf(w: Word): Option<Span> {
    var start := StampMs(w.start);
    if start == None then None
    else if w.end == 0.0 then Some(Span(w.text, start, None))
    else if StampMs(w.end) == None || StampMs(w.end).value < start.value then None
    else Some(Span(w.text, start, StampMs(w.end)))
  }

  /** The spans of a line's words, when they are all timed and spell its text. */
  function SpansOf(words: seq<Word>, text: string): Option<seq<Span>> {
    if words == [] || JoinWords(words) != text || Blank(text) then None
    else if forall i | 0 <= i < |words| :: SpanOf(words[i]).Some? then
      Some(seq(|words|, i requires 0 <= i < |words| => SpanOf(words[i]).value))
    else None
  }

  function EarliestSpan(start: int, spans: seq<Span>): int {
    if spans == [] then start
    else
      var before := EarliestSpan(start, spans[..|spans| - 1]);
      var last := spans[|spans| - 1].startMs;
      if last.Some? && last.value < before then last.value else before
  }

  function LineText(line: Line): string {
    if line.text == "" then JoinWords(line.words) else line.text
  }

  /** A line's start and end can be written down. */
  predicate Stampable(line: Line) {
    && StampMs(line.start).Some?
    && (line.end != 0.0 ==> StampMs(line.end).Some? && StampMs(line.end).value >= StampMs(line.start).value)
  }

  predicate AllStampable(lines: seq<Line>) {
    forall i | 0 <= i < |lines| :: Stampable(lines[i])
  }

  function DocumentLineOf(line: Line): DocumentLine
    requires Stampable(line)
  {
    var start := StampMs(line.start).value;
    var end := if line.end == 0.0 then None else StampMs(line.end);
    var spans := SpansOf(line.words, LineText(line));
    match spans
    case None => DocumentLine(Span(LineText(line), Some(start), end), [])
    case Some(words) => DocumentLine(Span(LineText(line), Some(EarliestSpan(start, words)), end), words)
  }

  function WordTotal(lines: seq<Line>): nat {
    if lines == [] then 0 else WordTotal(lines[..|lines| - 1]) + |lines[|lines| - 1].words|
  }

  function DocumentLinesOf(lines: seq<Line>): seq<DocumentLine>
    requires AllStampable(lines)
  {
    seq(|lines|, i requires 0 <= i < |lines| => DocumentLineOf(lines[i]))
  }

  function WrittenTexts(lines: seq<Line>): seq<string> {
    seq(|lines|, i requires 0 <= i < |lines| => LineText(lines[i]))
  }

  function WrittenPlain(l: Lyrics): string {
    if l.plain == "" then Join(WrittenTexts(SortLines(l.synced)), "\n") else l.plain
  }

  /** The document lyrics are written as, or why they cannot be. */
  function Encode(l: Lyrics): Result<Document> {
    if l.source == SourceLyricsfile && l.raw.Some? then Ok(l.raw.value)
    else if l.title == "" || l.artist == "" || l.durationMs < 0 then Err(Malformed)
    else if l.instrumental then Ok(Document("1.0", l.title, l.artist, l.album, l.durationMs, true, [], ""))
    else if |l.synced| > MAX_LINES || WordTotal(l.synced) > MAX_WORDS then Err(TooLarge)
    else
      var lines := SortLines(l.synced);
      if !AllStampable(lines) then Err(Malformed)
      else if Count(WrittenPlain(l), '\n') + 1 > MAX_LINES then Err(TooLarge)
      else Ok(Document("1.0", l.title, l.artist, l.album, l.durationMs, false, DocumentLinesOf(lines),
                       WrittenPlain(l)))
  }
}
