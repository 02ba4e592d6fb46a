/** Where rewriting a mimeapps.list (desktop/mimeapps.go) leaves the lines of the file and puts the new ones. */
module MimeappsPlaces {
  import opened Text
  import opened MimeappsLists
  import opened Mimeapps
  import opened MimeappsRendering
  import opened MimeappsRoundTrip

  // ---------------------------------------------------------------- what becomes of each line

  /** The group has an entry for the key before. */
  ghost predicate SaidBefore(text: seq<TextLine>, group: string, key: string) {
    exists j | 0 <= j < |text| ::
      text[j].kind.Entry? && text[j].kind.key == key && CurrentFrom("", text[..j]) == group
  }

  ghost predicate Opened(text: seq<TextLine>, group: string) {
    exists h | 0 <= h < |text| :: text[h].kind == Header(group)
  }

  /** The first section of the group has ended. */
  ghost predicate ClosedBefore(text: seq<TextLine>, group: string) {
    exists h, m | 0 <= h < m < |text| :: text[h].kind == Header(group) && text[m].kind.Header?
  }

  /** An entry of a managed group is replaced where it stands, if it is the first for its key, in the first section
      of the group, and the key is to be written; else it goes. Every other line stays. */
  ghost function RewrittenLine(managed: Managed, before: seq<TextLine>, line: TextLine): seq<TextLine> {
    var group := CurrentFrom("", before);
    if !line.kind.Entry? || group !in managed then [line]
    else if line.kind.key !in managed[group] || SaidBefore(before, group, line.kind.key)
            || ClosedBefore(before, group) then []
    else
      var key, value := line.kind.key, managed[group][line.kind.key];
      [TextLine(key + "=" + value, Entry(key, key, value))]
  }

  ghost function Rewritten(managed: Managed, text: seq<TextLine>): seq<TextLine> {
    if text == [] then []
    else Rewritten(managed, text[..|text| - 1]) + RewrittenLine(managed, text[..|text| - 1], text[|text| - 1])
  }

  // ---------------------------------------------------------------- old lines and new ones

  /** The lines that are marked as old. */
  function Pick(out: seq<TextLine>, kept: seq<bool>): seq<TextLine>
    requires |out| == |kept|
  {
    if out == [] then []
    else Pick(out[..|out| - 1], kept[..|out| - 1]) + if kept[|out| - 1] then [out[|out| - 1]] else []
  }

  lemma {:induction false} PickJoins(a: seq<TextLine>, o: seq<bool>, b: seq<TextLine>, p: seq<bool>)
    requires |a| == |o| && |b| == |p|
    ensures Pick(a + b, o + p) == Pick(a, o) + Pick(b, p)
  {
    if b == [] {
      assert a + b == a && o + p == o;
    } else {
      var n := |b| - 1;
      PickJoins(a, o, b[..n], p[..n]);
      assert (a + b)[..|a + b| - 1] == a + b[..n] && (o + p)[..|a + b| - 1] == o + p[..n];
    }
  }

  function All(n: nat, flag: bool): (r: seq<bool>)
    ensures |r| == n && forall i | 0 <= i < n :: r[i] == flag
  {
    seq(n, _ => flag)
  }

  lemma {:induction false} PickNone(a: seq<TextLine>)
    ensures Pick(a, All(|a|, false)) == []
  {
    if a != [] {
      PickNone(a[..|a| - 1]);
      assert All(|a|, false)[..|a| - 1] == All(|a| - 1, false);
    }
  }

  ghost predicate HeaderBetween(out: seq<TextLine>, p: int, q: int) {
    exists h | p < h <= q && 0 <= h < |out| :: out[h].kind.Header?
  }

  predicate Follows(a: TextLine, b: TextLine) {
    a.kind.Entry? && b.kind.Entry? && CompareBytes(a.kind.key, b.kind.key) < 0
  }

  /** Up to the next header a new entry is followed only by new entries with greater keys, and blank lines. */
  ghost predicate AtTheEnd(out: seq<TextLine>, kept: seq<bool>, p: nat)
    requires |out| == |kept| && p < |out|
  {
    forall q | p < q < |out| && !HeaderBetween(out, p, q) ::
      out[q].kind == Blank || (!kept[q] && Follows(out[p], out[q]))
  }

  /** A line as it is written: an entry, the header of one of the three groups, or an empty line. */
  predicate IsNew(line: TextLine) {
    match line.kind
    case Entry(key, bare, value) => bare == key && line.raw == key + "=" + value
    case Header(name) =>
      && line.raw == "[" + name + "]"
      && name in {"Default Applications", "Added Associations", "Removed Associations"}
    case Blank => line.raw == ""
    case _ => false
  }

  /** New entries stand at the end of their section. New headers, and gaps before them, come after all that is old. */
  ghost predicate WellPlaced(out: seq<TextLine>, kept: seq<bool>) {
    && |out| == |kept|
    && (forall p | 0 <= p < |out| && !kept[p] && out[p].kind.Entry? :: AtTheEnd(out, kept, p))
    && (forall p, q | 0 <= p < q < |out| && !kept[p] && !out[p].kind.Entry? :: !kept[q])
    && (forall p | 0 <= p < |out| && !kept[p] :: IsNew(out[p]))
  }

  /** While lines are read, only sections that are over have new entries. */
  ghost predicate Loose(out: seq<TextLine>, kept: seq<bool>) {
    && WellPlaced(out, kept)
    && forall p | 0 <= p < |out| && !kept[p] :: out[p].kind.Entry? && HeaderBetween(out, p, |out| - 1)
  }

  lemma HeaderStaysBetween(out: seq<TextLine>, more: seq<TextLine>, p: int, q: int)
    requires q < |out|
    ensures HeaderBetween(out + more, p, q) <==> HeaderBetween(out, p, q)
  {
    if h :| p < h <= q && 0 <= h < |out| && out[h].kind.Header? { assert (out + more)[h].kind.Header?; }
    if h :| p < h <= q && 0 <= h < |out + more| && (out + more)[h].kind.Header? { assert out[h].kind.Header?; }
  }

  lemma KeepsLoose(out: seq<TextLine>, kept: seq<bool>, line: TextLine)
    requires Loose(out, kept)
    ensures Loose(out + [line], kept + [true])
  {
    var out', kept' := out + [line], kept + [true];
    forall p | 0 <= p < |out'| && !kept'[p]
      ensures out'[p].kind.Entry? && HeaderBetween(out', p, |out'| - 1) && AtTheEnd(out', kept', p)
    {
      assert AtTheEnd(out, kept, p) && HeaderBetween(out, p, |out| - 1);
      var h :| p < h <= |out| - 1 && 0 <= h < |out| && out[h].kind.Header?;
      assert out'[h].kind.Header?;
      forall q | p < q < |out'| && !HeaderBetween(out', p, q)
        ensures out'[q].kind == Blank || (!kept'[q] && Follows(out'[p], out'[q]))
      {
        HeaderStaysBetween(out, [line], p, q);
      }
    }
  }

  // ---------------------------------------------------------------- sections that end

  ghost predicate Ascending(entries: seq<TextLine>) {
    && (forall i | 0 <= i < |entries| :: entries[i].kind.Entry? && IsNew(entries[i]))
    && forall i, j | 0 <= i < j < |entries| :: Follows(entries[i], entries[j])
  }

  lemma EntriesAscend(entries: Entries, keys: set<string>)
    requires forall k | k in SortedKeys(keys) :: k in entries
    ensures Ascending(EntryTexts(entries, SortedKeys(keys)))
  {
    SortedKeysAscend(keys);
  }

  function Between(out: seq<TextLine>, at: nat, entries: seq<TextLine>): seq<TextLine>
    requires at <= |out|
  {
    out[..at] + entries + out[at..]
  }

  function MarksBetween(kept: seq<bool>, at: nat, n: nat): seq<bool>
    requires at <= |kept|
  {
    kept[..at] + All(n, false) + kept[at..]
  }

  lemma PickSection(out: seq<TextLine>, kept: seq<bool>, section: seq<TextLine>)
    requires |out| == |kept|
    ensures Pick(out + section, kept + All(|section|, false)) == Pick(out, kept)
  {
    PickNone(section);
    PickJoins(out, kept, section, All(|section|, false));
    assert Pick(out, kept) + [] == Pick(out, kept);
  }

  lemma PickAround(a: seq<TextLine>, o: seq<bool>, b: seq<TextLine>, p: seq<bool>, entries: seq<TextLine>)
    requires |a| == |o| && |b| == |p|
    ensures Pick(a + entries + b, o + All(|entries|, false) + p) == Pick(a + b, o + p)
  {
    PickSection(a, o, entries);
    PickJoins(a + entries, o + All(|entries|, false), b, p);
    PickJoins(a, o, b, p);
  }

  lemma PickBetween(out: seq<TextLine>, kept: seq<bool>, at: nat, entries: seq<TextLine>)
    requires |out| == |kept| && at <= |out|
    ensures Pick(Between(out, at, entries), MarksBetween(kept, at, |entries|)) == Pick(out, kept)
  {
    PickAround(out[..at], kept[..at], out[at..], kept[at..], entries);
    assert out[..at] + out[at..] == out && kept[..at] + kept[at..] == kept;
  }

  ghost predicate BlankFrom(out: seq<TextLine>, at: nat) {
    at <= |out| && forall i | at <= i < |out| :: out[i].kind == Blank
  }

  lemma SameHeaders(a: seq<TextLine>, b: seq<TextLine>, p: int, q: int)
    requires q < |a| && q < |b| && forall k | 0 <= k <= q :: a[k] == b[k]
    ensures HeaderBetween(a, p, q) <==> HeaderBetween(b, p, q)
  {
  }

  lemma NewIsClosed(out: seq<TextLine>, kept: seq<bool>, at: nat, p: nat) returns (h: nat)
    requires Loose(out, kept) && BlankFrom(out, at) && p < |out| && !kept[p]
    ensures p < h < at && out[h].kind.Header? && AtTheEnd(out, kept, p)
  {
    h :| p < h <= |out| - 1 && out[h].kind.Header?;
  }

  lemma BeforeHeader(out: seq<TextLine>, p: nat, q: nat, h: nat)
    requires p < h < |out| && out[h].kind.Header? && p < q && !HeaderBetween(out, p, q)
    ensures q < h
  {
  }

  /** A section that was over before is as it was. */
  lemma OldSectionStays(out: seq<TextLine>, kept: seq<bool>, at: nat, entries: seq<TextLine>, p: nat)
    requires Loose(out, kept) && BlankFrom(out, at) && p < |out| && !kept[p]
    ensures p < at && AtTheEnd(Between(out, at, entries), MarksBetween(kept, at, |entries|), p)
  {
    var out', kept' := Between(out, at, entries), MarksBetween(kept, at, |entries|);
    var h := NewIsClosed(out, kept, at, p);
    assert forall k | 0 <= k < at :: out'[k] == out[k] && kept'[k] == kept[k];
    forall q | p < q < |out'| && !HeaderBetween(out', p, q)
      ensures out'[q].kind == Blank || (!kept'[q] && Follows(out'[p], out'[q]))
    {
      BeforeHeader(out', p, q, h);
      SameHeaders(out, out', p, q);
    }
  }

  lemma NewSectionEnds(out: seq<TextLine>, kept: seq<bool>, at: nat, entries: seq<TextLine>, p: nat)
    requires |out| == |kept| && BlankFrom(out, at) && Ascending(entries) && at <= p < at + |entries|
    ensures AtTheEnd(Between(out, at, entries), MarksBetween(kept, at, |entries|), p)
  {
    var out', kept' := Between(out, at, entries), MarksBetween(kept, at, |entries|);
    forall q | p < q < |out'| ensures out'[q].kind == Blank || (!kept'[q] && Follows(out'[p], out'[q])) {
      if q < at + |entries| {
        assert out'[p] == entries[p - at] && out'[q] == entries[q - at];
      } else {
        assert out'[q] == out[q - |entries|];
      }
    }
  }

  ghost predicate OnlyEntriesNew(out: seq<TextLine>, kept: seq<bool>) {
    |out| == |kept| && forall p | 0 <= p < |out| && !kept[p] :: out[p].kind.Entry?
  }

  lemma FlushPlaces(out: seq<TextLine>, kept: seq<bool>, at: nat, entries: seq<TextLine>)
    requires Loose(out, kept) && BlankFrom(out, at) && Ascending(entries)
    ensures WellPlaced(Between(out, at, entries), MarksBetween(kept, at, |entries|))
    ensures OnlyEntriesNew(Between(out, at, entries), MarksBetween(kept, at, |entries|))
  {
    var n := |entries|;
    var out', kept' := Between(out, at, entries), MarksBetween(kept, at, n);
    assert forall p | at + n <= p < |out'| :: kept'[p] by {
      assert forall p | at + n <= p < |out'| :: kept'[p] == kept[p - n] && out[p - n].kind == Blank;
    }
    forall p | 0 <= p < |out'| && !kept'[p] ensures out'[p].kind.Entry? && AtTheEnd(out', kept', p) {
      if p < at {
        assert out'[p] == out[p] && kept'[p] == kept[p];
        OldSectionStays(out, kept, at, entries, p);
      } else {
        assert out'[p] == entries[p - at];
        NewSectionEnds(out, kept, at, entries, p);
      }
    }
  }

  /** A header ends the section. */
  lemma HeaderCloses(out: seq<TextLine>, kept: seq<bool>, line: TextLine)
    requires WellPlaced(out, kept) && OnlyEntriesNew(out, kept) && line.kind.Header?
    ensures Loose(out + [line], kept + [true])
  {
    var out', kept' := out + [line], kept + [true];
    assert out'[|out|].kind.Header?;
    forall p | 0 <= p < |out'| && !kept'[p]
      ensures out'[p].kind.Entry? && HeaderBetween(out', p, |out'| - 1) && AtTheEnd(out', kept', p)
    {
      assert AtTheEnd(out, kept, p);
      forall q | p < q < |out'| && !HeaderBetween(out', p, q)
        ensures out'[q].kind == Blank || (!kept'[q] && Follows(out'[p], out'[q]))
      {
        HeaderStaysBetween(out, [line], p, q);
      }
    }
  }

  lemma SectionEntryEnds(out: seq<TextLine>, kept: seq<bool>, gap: seq<TextLine>, line: TextLine,
                         entries: seq<TextLine>, p: int, q: int)
    requires WellPlaced(out, kept) && line.kind.Header? && IsNew(line) && Ascending(entries)
    requires gap == [] || gap == [GAP]
    requires var section := gap + [line] + entries;
             var out', kept' := out + section, kept + All(|section|, false);
             0 <= p < q < |out'| && !kept'[p] && out'[p].kind.Entry? && !HeaderBetween(out', p, q)
    ensures var section := gap + [line] + entries;
            var out', kept' := out + section, kept + All(|section|, false);
            out'[q].kind == Blank || (!kept'[q] && Follows(out'[p], out'[q]))
  {
    var section := gap + [line] + entries;
    var out' := out + section;
    var header := |out| + |gap|;
    assert out'[header] == line;
    if p < |out| {
      assert out'[p] == out[p] && AtTheEnd(out, kept, p);
      if q < |out| {
        HeaderStaysBetween(out, section, p, q);
      } else if q < header {
        assert out'[q] == GAP;
      }
    } else if p > header {
      assert out'[p] == entries[p - header - 1] && out'[q] == entries[q - header - 1];
    }
  }

  /** A section of its own at the end. */
  lemma SectionIsNew(out: seq<TextLine>, kept: seq<bool>, gap: seq<TextLine>, line: TextLine, entries: seq<TextLine>)
    requires WellPlaced(out, kept) && line.kind.Header? && IsNew(line) && Ascending(entries)
    requires gap == [] || gap == [GAP]
    ensures WellPlaced(out + gap + [line] + entries, kept + All(|gap| + 1 + |entries|, false))
  {
    var section := gap + [line] + entries;
    var out', kept' := out + section, kept + All(|section|, false);
    assert out' == out + gap + [line] + entries;
    forall p | 0 <= p < |out'| && !kept'[p] && out'[p].kind.Entry? ensures AtTheEnd(out', kept', p) {
      forall q | p < q < |out'| && !HeaderBetween(out', p, q)
        ensures out'[q].kind == Blank || (!kept'[q] && Follows(out'[p], out'[q]))
      {
        SectionEntryEnds(out, kept, gap, line, entries, p, q);
      }
    }
  }

  // ---------------------------------------------------------------- the whole text

  lemma SaidMore(text: seq<TextLine>, line: TextLine, group: string, key: string)
    ensures SaidBefore(text + [line], group, key) <==>
            SaidBefore(text, group, key)
            || (line.kind.Entry? && line.kind.key == key && CurrentFrom("", text) == group)
  {
    var more := text + [line];
    assert forall j | 0 <= j < |text| :: more[..j] == text[..j];
    assert more[..|text|] == text && more[|text|] == line;
    if j :| 0 <= j < |text| && text[j].kind.Entry? && text[j].kind.key == key && CurrentFrom("", text[..j]) == group {
      assert more[j] == text[j];
    }
  }

  lemma ClosedMore(text: seq<TextLine>, line: TextLine, group: string)
    ensures ClosedBefore(text + [line], group) <==>
            ClosedBefore(text, group) || (line.kind.Header? && Opened(text, group))
  {
    var more := text + [line];
    if h, m :| 0 <= h < m < |text| && text[h].kind == Header(group) && text[m].kind.Header? {
      assert more[h] == text[h] && more[m] == text[m];
    }
    if line.kind.Header? && Opened(text, group) {
      var h :| 0 <= h < |text| && text[h].kind == Header(group);
      assert more[h] == text[h] && more[|text|] == line;
    }
  }

  lemma {:induction false} CurrentIsOpened(text: seq<TextLine>, group: string)
    ensures CurrentFrom("", text) == group && group != "" ==> Opened(text, group)
    ensures Opened(text, group) && CurrentFrom("", text) != group ==> ClosedBefore(text, group)
  {
    if text != [] {
      var front, last := text[..|text| - 1], text[|text| - 1];
      CurrentIsOpened(front, group);
      ClosedMore(front, last, group);
      assert text == front + [last];
      if h :| 0 <= h < |front| && front[h].kind == Header(group) { assert text[h].kind == Header(group); }
      if h :| 0 <= h < |text| && text[h].kind == Header(group) && h < |front| { assert front[h] == text[h]; }
    }
  }

  /** An entry counts as written when the group has said it, or when its first section is over. */
  ghost predicate WrittenIs(managed: Managed, text: seq<TextLine>, r: Rendering) {
    forall g, k | g in managed && k in managed[g] ::
      (g, k) in r.written <==> SaidBefore(text, g, k) || ClosedBefore(text, g)
  }

  ghost predicate Stands(managed: Managed, text: seq<TextLine>, r: Rendering, kept: seq<bool>) {
    && r.current == CurrentFrom("", text) && WrittenIs(managed, text, r)
    && Loose(r.out, kept) && Pick(r.out, kept) == Rewritten(managed, text)
  }

  lemma RewrittenMore(managed: Managed, text: seq<TextLine>, line: TextLine)
    ensures Rewritten(managed, text + [line]) == Rewritten(managed, text) + RewrittenLine(managed, text, line)
    ensures CurrentFrom("", text + [line]) == if line.kind.Header? then line.kind.name else CurrentFrom("", text)
  {
    assert (text + [line])[..|text|] == text;
  }

  lemma PickOneMore(out: seq<TextLine>, kept: seq<bool>, line: TextLine)
    requires |out| == |kept|
    ensures Pick(out + [line], kept + [true]) == Pick(out, kept) + [line]
  {
    assert (out + [line])[..|out|] == out && (kept + [true])[..|out|] == kept;
  }

  lemma WrittenWithin(managed: Managed, text: seq<TextLine>, line: TextLine, r: Rendering,
                      written: set<(string, string)>)
    requires WrittenIs(managed, text, r) && r.current == CurrentFrom("", text) && !line.kind.Header?
    requires written == r.written + if line.kind.Entry? then {(r.current, line.kind.key)} else {}
    ensures WrittenIs(managed, text + [line], r.(written := written))
  {
    forall g, k | g in managed && k in managed[g]
      ensures (g, k) in written <==> SaidBefore(text + [line], g, k) || ClosedBefore(text + [line], g)
    {
      SaidMore(text, line, g, k);
      ClosedMore(text, line, g);
    }
  }

  lemma WrittenSame(managed: Managed, text: seq<TextLine>, r: Rendering, s: Rendering)
    requires WrittenIs(managed, text, r)
    requires forall g, k | g in managed && k in managed[g] :: (g, k) in s.written <==> (g, k) in r.written
    ensures WrittenIs(managed, text, s)
  {
  }

  /** An entry of a managed group. */
  lemma EntryStands(managed: Managed, text: seq<TextLine>, line: TextLine, r: Rendering, kept: seq<bool>)
      returns (kept': seq<bool>)
    requires Stands(managed, text, r, kept) && line.kind.Entry? && r.current in managed
    ensures Stands(managed, text + [line], RenderLine(managed, r, line), kept')
  {
    var key, s := line.kind.key, RenderLine(managed, r, line);
    RewrittenMore(managed, text, line);
    WrittenWithin(managed, text, line, r, r.written + {(r.current, key)});
    WrittenSame(managed, text + [line], r.(written := r.written + {(r.current, key)}), s);
    if key in managed[r.current] && (r.current, key) !in r.written {
      var entry := EntryText(key, managed[r.current][key]);
      kept' := kept + [true];
      KeepsLoose(r.out, kept, entry);
      PickOneMore(r.out, kept, entry);
    } else {
      kept' := kept;
      assert Rewritten(managed, text) + [] == Rewritten(managed, text);
    }
  }

  lemma LineIsWritten(managed: Managed, text: seq<TextLine>, line: TextLine, r: Rendering)
    requires WrittenIs(managed, text, r) && r.current == CurrentFrom("", text)
    requires !line.kind.Header? && (line.kind.Entry? ==> r.current !in managed)
    ensures WrittenIs(managed, text + [line], Keep(r, line))
  {
    var written := r.written + if line.kind.Entry? then {(r.current, line.kind.key)} else {};
    WrittenWithin(managed, text, line, r, written);
    WrittenSame(managed, text + [line], r.(written := written), Keep(r, line));
  }

  /** A line that stays. */
  lemma LineStands(managed: Managed, text: seq<TextLine>, line: TextLine, r: Rendering, kept: seq<bool>)
    requires Stands(managed, text, r, kept) && !line.kind.Header? && (line.kind.Entry? ==> r.current !in managed)
    ensures RenderLine(managed, r, line) == Keep(r, line)
    ensures Stands(managed, text + [line], Keep(r, line), kept + [true])
  {
    RewrittenMore(managed, text, line);
    KeepsLoose(r.out, kept, line);
    PickOneMore(r.out, kept, line);
    LineIsWritten(managed, text, line, r);
  }

  /** What a flush makes of the text. */
  lemma FlushStands(managed: Managed, r: Rendering, kept: seq<bool>) returns (kept': seq<bool>)
    requires Loose(r.out, kept)
    ensures var s := Flush(managed, r);
            && WellPlaced(s.out, kept') && OnlyEntriesNew(s.out, kept') && Pick(s.out, kept') == Pick(r.out, kept)
            && s.current == r.current
            && (forall g, k :: (g, k) in s.written <==>
                  (g, k) in r.written || (g == r.current && g in managed && k in managed[g]))
  {
    kept' := kept;
    if r.current in managed {
      var keys := Missing(managed, r, r.current);
      var at := BodyEnd(r.out);
      MissingAreEntries(managed, r, r.current);
      var entries := EntryTexts(managed[r.current], SortedKeys(keys));
      EntriesAscend(managed[r.current], keys);
      kept' := MarksBetween(kept, at, |entries|);
      FlushPlaces(r.out, kept, at, entries);
      PickBetween(r.out, kept, at, entries);
    }
  }

  /** Nothing is said in a group that was not opened. */
  lemma SaidIsOpened(text: seq<TextLine>, group: string, key: string)
    requires group != "" && SaidBefore(text, group, key)
    ensures Opened(text, group)
  {
    var j :| 0 <= j < |text| && text[j].kind.Entry? && text[j].kind.key == key && CurrentFrom("", text[..j]) == group;
    CurrentIsOpened(text[..j], group);
    var h :| 0 <= h < j && text[..j][h].kind == Header(group);
    assert text[h].kind == Header(group);
  }

  lemma WrittenAtHeader(managed: Managed, text: seq<TextLine>, line: TextLine, r: Rendering, s: Rendering)
    requires "" !in managed && WrittenIs(managed, text, r) && r.current == CurrentFrom("", text) && line.kind.Header?
    requires forall g, k :: (g, k) in s.written <==>
               (g, k) in r.written || (g == r.current && g in managed && k in managed[g])
    ensures WrittenIs(managed, text + [line], s)
  {
    forall g, k | g in managed && k in managed[g]
      ensures (g, k) in s.written <==> SaidBefore(text + [line], g, k) || ClosedBefore(text + [line], g)
    {
      SaidMore(text, line, g, k);
      ClosedMore(text, line, g);
      CurrentIsOpened(text, g);
      if SaidBefore(text, g, k) { SaidIsOpened(text, g, k); }
    }
  }

  lemma HeaderStands(managed: Managed, text: seq<TextLine>, line: TextLine, r: Rendering, kept: seq<bool>)
      returns (kept': seq<bool>)
    requires "" !in managed && Stands(managed, text, r, kept) && line.kind.Header?
    ensures Stands(managed, text + [line], RenderLine(managed, r, line), kept')
  {
    var flushed := FlushStands(managed, r, kept);
    var s := Flush(managed, r);
    kept' := flushed + [true];
    HeaderCloses(s.out, flushed, line);
    PickOneMore(s.out, flushed, line);
    RewrittenMore(managed, text, line);
    WrittenAtHeader(managed, text, line, r, RenderLine(managed, r, line));
  }

  lemma {:induction false} TextStands(managed: Managed, text: seq<TextLine>) returns (kept: seq<bool>)
    requires "" !in managed
    ensures Stands(managed, text, RenderFrom(managed, START, text), kept)
  {
    kept := [];
    if text != [] {
      var front, line := text[..|text| - 1], text[|text| - 1];
      var r := RenderFrom(managed, START, front);
      kept := TextStands(managed, front);
      assert text == front + [line];
      if line.kind.Header? { kept := HeaderStands(managed, front, line, r, kept); }
      else if line.kind.Entry? && r.current in managed { kept := EntryStands(managed, front, line, r, kept); }
      else {
        LineStands(managed, front, line, r, kept);
        kept := kept + [true];
      }
    }
  }

  lemma SectionJoins(out: seq<TextLine>, gap: seq<TextLine>, line: TextLine, entries: seq<TextLine>)
    ensures out + gap + [line] + entries == out + (gap + [line] + entries)
    ensures |gap + [line] + entries| == |gap| + 1 + |entries|
  {
  }

  lemma SectionPlaced(out: seq<TextLine>, kept: seq<bool>, gap: seq<TextLine>, line: TextLine, entries: seq<TextLine>)
      returns (kept': seq<bool>)
    requires WellPlaced(out, kept) && line.kind.Header? && IsNew(line) && Ascending(entries)
    requires gap == [] || gap == [GAP]
    ensures WellPlaced(out + gap + [line] + entries, kept')
    ensures Pick(out + gap + [line] + entries, kept') == Pick(out, kept)
  {
    var section := gap + [line] + entries;
    kept' := kept + All(|section|, false);
    SectionIsNew(out, kept, gap, line, entries);
    PickSection(out, kept, section);
    SectionJoins(out, gap, line, entries);
  }

  lemma SectionIs(managed: Managed, r: Rendering, group: string) returns (entries: seq<TextLine>)
    requires Three(managed) && group in managed && Missing(managed, r, group) != {}
    ensures Ascending(entries) && IsNew(HeaderText(group))
    ensures AppendGroup(managed, r, group).out == r.out + GapAfter(r.out) + [HeaderText(group)] + entries
  {
    var missing := Missing(managed, r, group);
    MissingAreEntries(managed, r, group);
    entries := EntryTexts(managed[group], SortedKeys(missing));
    EntriesAscend(managed[group], missing);
  }

  lemma SectionStands(managed: Managed, r: Rendering, group: string, kept: seq<bool>) returns (kept': seq<bool>)
    requires Three(managed) && group in managed && WellPlaced(r.out, kept)
    ensures WellPlaced(AppendGroup(managed, r, group).out, kept')
    ensures Pick(AppendGroup(managed, r, group).out, kept') == Pick(r.out, kept)
  {
    kept' := kept;
    if Missing(managed, r, group) != {} {
      var entries := SectionIs(managed, r, group);
      kept' := SectionPlaced(r.out, kept, GapAfter(r.out), HeaderText(group), entries);
    }
  }

  /** Rewriting leaves every line where it stands, but for entries of the three groups that are replaced by what is to
      be written, or dropped; new entries come at the end of their section, in byte order, before its trailing blank
      lines; and sections of their own, for groups the file does not have, come last. */
  lemma RewritesInPlace(managed: Managed, text: seq<TextLine>) returns (kept: seq<bool>)
    requires Three(managed)
    ensures var out := RenderText(managed, text).out;
            WellPlaced(out, kept) && Pick(out, kept) == Rewritten(managed, text)
  {
    var r := RenderFrom(managed, START, text);
    kept := TextStands(managed, text);
    kept := FlushStands(managed, r, kept);
    var s := Flush(managed, r);
    kept := SectionStands(managed, s, DEFAULTS, kept);
    s := AppendGroup(managed, s, DEFAULTS);
    kept := SectionStands(managed, s, ADDED, kept);
    s := AppendGroup(managed, s, ADDED);
    kept := SectionStands(managed, s, REMOVED, kept);
  }
}
