/** A Lyricsfile document as lyrics/lyricsfile.go has it between the YAML text and the lyrics. */
module LyricsfileDocument {
  import opened Wrappers

  datatype Span = Span(text: string, startMs: Option<int>, endMs: Option<int>)

  datatype DocumentLine = DocumentLine(span: Span, words: seq<Span>)

  datatype Document = Document(version: string, title: string, artist: string, album: string, durationMs: int,
                               instrumental: bool, lines: seq<DocumentLine>, plain: string)
}
