/** What is rendered reads back, and everything else in the file survives. */
module MimeappsRoundTrip {
  import opened Wrappers
  import opened Text
  import opened MimeappsLists
  import opened Mimeapps
  import opened MimeappsRendering
  import opened MimeappsSpelling

  // ---------------------------------------------------------------- lines that are read as they are meant

  /** A key as it comes out of a file. */
  predicate ReadKey(key: string) {
    key != "" && '=' !in key && key[0] != '#' && !IsSpace(key[0])
  }

  predicate GoodKey(key: string) {
    ReadKey(key) && IsSafeIniField(key) && Trimmed(key)
  }

  predicate GoodValue(value: string) {
    value != "" && Trimmed(value)
  }

  /** The line is read again as it was meant: as what it is, or as an entry under the trimmed key. */
  predicate Speaks(line: TextLine) {
    ReadLine(line.raw) == Respell(line)
  }

  lemma FirstSuchChar(s: string, c: char, at: nat)
    requires at < |s| && s[at] == c && forall i | 0 <= i < at :: s[i] != c
    ensures IndexOfChar(s, c) == at
  {
  }

  lemma NoLocale(key: string)
    requires '[' !in key
    ensures CutLocale(key) == key
  {
  }

  lemma EntryLineIsTrimmed(key: string, value: string)
    requires ReadKey(key) && GoodValue(value)
    ensures TrimSpace(key + "=" + value) == key + "=" + value
  {
    var line := key + "=" + value;
    assert line[0] == key[0] && line[|line| - 1] == value[|value| - 1];
    TrimSpaceTrims(line);
  }

  lemma EntryLineSplits(key: string, value: string)
    requires ReadKey(key)
    ensures var line := key + "=" + value;
            IndexOfChar(line, '=') == |key| && line[..|key|] == key && line[|key| + 1..] == value
  {
    FirstSuchChar(key + "=" + value, '=', |key|);
  }

  /** An entry with a value is read under its trimmed key, if no bracket makes part of the key a locale. */
  lemma EntrySpeaks(key: string, value: string)
    requires ReadKey(key) && IsSafeIniField(key) && GoodValue(value)
    ensures Speaks(EntryText(key, value))
  {
    var line := key + "=" + value;
    EntryLineIsTrimmed(key, value);
    EntryLineSplits(key, value);
    TrimSpaceTrims(value);
    TrimSpaceKeeps(key);
    NoLocale(TrimSpace(key));
    assert line[0] == key[0] && key[0] in key;
  }

  lemma HeaderIsRead(group: string)
    ensures ReadLine("[" + group + "]") == HeaderText(group)
  {
    var line := "[" + group + "]";
    TrimSpaceTrims(line);
    assert line[1..|line| - 1] == group;
  }

  lemma GapSpeaks()
    ensures Speaks(GAP)
  {
  }

  /** What is read from a file has trimmed keys, and is read again as the same. */
  lemma ReadLineSpeaks(raw: string)
    ensures Respell(ReadLine(raw)) == ReadLine(raw) && Speaks(ReadLine(raw))
    ensures ReadLine(raw).kind.Entry? ==> Trimmed(ReadLine(raw).kind.key)
  {
    var line := TrimSpace(raw);
    var eq := IndexOfChar(line, '=');
    if ReadLine(raw).kind.Entry? {
      TrimSpaceTrims(line[..eq]);
      TrimSpaceTrims(TrimSpace(line[..eq]));
    }
  }

  lemma ReadLinesSpeak(lines: seq<string>)
    ensures All(Speaks, ReadLines(lines)) && KeysRead(ReadLines(lines))
    ensures Respelled(ReadLines(lines)) == ReadLines(lines)
  {
    forall i | 0 <= i < |lines|
      ensures Respell(ReadLine(lines[i])) == ReadLine(lines[i]) && Speaks(ReadLine(lines[i]))
      ensures ReadLine(lines[i]).kind.Entry? ==> Trimmed(ReadLine(lines[i]).kind.key)
    {
      ReadLineSpeaks(lines[i]);
    }
  }

  lemma SpokenTextIsRead(text: seq<TextLine>)
    requires All(Speaks, text)
    ensures ReadLines(Raws(text)) == Respelled(text)
  {
    forall i | 0 <= i < |text| ensures ReadLines(Raws(text))[i] == Respelled(text)[i] {
      assert text[i] in text && Speaks(text[i]);
    }
  }

  predicate LegibleEntries(entries: Entries) {
    forall k | k in entries :: ReadKey(k) && IsSafeIniField(k) && GoodValue(entries[k])
  }

  /** Entries that can be read again once they are written. */
  ghost predicate LegibleGroups(managed: Managed) {
    Three(managed) && forall g | g in managed :: LegibleEntries(managed[g])
  }

  lemma LegibleSpeaks(managed: Managed)
    requires LegibleGroups(managed)
    ensures WritesOnly(Speaks, managed) && Unindented(managed)
  {
    GapSpeaks();
    forall g ensures Speaks(HeaderText(g)) { HeaderIsRead(g); }
    forall g, k | g in managed && k in managed[g] ensures Speaks(EntryText(k, managed[g][k])) {
      EntrySpeaks(k, managed[g][k]);
    }
  }

  /** The rendered lines are read as the text they were written from, with its keys trimmed. */
  lemma RenderIsRead(managed: Managed, original: seq<string>)
    requires LegibleGroups(managed)
    ensures ReadLines(Render(managed, original)) == Respelled(RenderText(managed, ReadLines(original)).out)
  {
    LegibleSpeaks(managed);
    ReadLinesSpeak(original);
    AllFinished(Speaks, managed, ReadLines(original));
    SpokenTextIsRead(RenderText(managed, ReadLines(original)).out);
  }

  lemma GroupsReadBack(managed: Managed, original: seq<string>)
    requires LegibleGroups(managed)
    ensures forall g | g in managed :: GroupOf(ParseGroups(Render(managed, original)), g) == Reread(managed[g])
  {
    RenderIsRead(managed, original);
    LegibleSpeaks(managed);
    ReadLinesSpeak(original);
    GroupsAreReread(managed, ReadLines(original));
  }

  // ---------------------------------------------------------------- associations

  predicate LegibleLists(lists: map<string, seq<string>>) {
    forall k | k in lists ::
      ReadKey(k) && IsSafeIniField(k) && forall x | x in lists[k] :: Item(x) && IsSafeIniField(x)
  }

  predicate LegibleDefaults(defaults: map<string, string>) {
    forall k | k in defaults :: ReadKey(k) && IsSafeIniField(k) && Item(defaults[k]) && IsSafeIniField(defaults[k])
  }

  /** Keys without `=`, brackets, a leading `#` or leading blanks; items without `;`, brackets or blanks around
      them. */
  predicate Legible(a: Associations) {
    LegibleDefaults(a.defaults) && LegibleLists(a.added) && LegibleLists(a.removed)
  }

  predicate KeysTrimmed(a: Associations) {
    AllTrimmed(a.defaults.Keys) && AllTrimmed(a.added.Keys) && AllTrimmed(a.removed.Keys)
  }

  predicate WellFormed(a: Associations) {
    Legible(a) && KeysTrimmed(a)
  }

  lemma {:induction false} JoinIsSafe(list: seq<string>)
    requires forall x | x in list :: Item(x) && IsSafeIniField(x)
    ensures IsSafeIniField(Join(list, ";")) && (list != [] ==> Join(list, ";") != "" && !IsSpace(Join(list, ";")[0]))
  {
    if |list| == 1 {
      assert list[0] in list;
    } else if |list| > 1 {
      JoinIsSafe(list[..|list| - 1]);
      assert list[|list| - 1] in list;
    }
  }

  lemma FlattenIsGood(list: seq<string>)
    requires forall x | x in list :: Item(x) && IsSafeIniField(x)
    ensures IsSafeIniField(Flatten(list)) && GoodValue(Flatten(list))
  {
    JoinIsSafe(list);
  }

  lemma ListsAreLegible(lists: map<string, seq<string>>)
    requires LegibleLists(lists)
    ensures AllSafe(FlattenAll(lists)) && LegibleEntries(FlattenAll(lists))
  {
    forall k | k in lists ensures IsSafeIniField(Flatten(lists[k])) && GoodValue(Flatten(lists[k])) {
      FlattenIsGood(lists[k]);
    }
  }

  lemma ThreeLegibleGroups(d: Entries, a: Entries, r: Entries)
    requires LegibleEntries(d) && LegibleEntries(a) && LegibleEntries(r)
    ensures LegibleGroups(map[DEFAULTS := d, ADDED := a, REMOVED := r])
  {
  }

  lemma LegibleIsWritten(a: Associations)
    requires Legible(a)
    ensures ManagedGroups(a) == Some(EntriesOf(a)) && LegibleGroups(EntriesOf(a))
  {
    ListsAreLegible(a.added);
    ListsAreLegible(a.removed);
    ThreeLegibleGroups(a.defaults, FlattenAll(a.added), FlattenAll(a.removed));
  }

  // ---------------------------------------------------------------- what is read back, exactly

  /** The associations under trimmed keys, each with the value of its first spelling. */
  function RereadAll(a: Associations): Associations {
    Associations(Reread(a.defaults), Reread(a.added), Reread(a.removed))
  }

  lemma ListsReread(lists: map<string, seq<string>>)
    requires LegibleLists(lists)
    ensures ListsOf(Reread(FlattenAll(lists))) == Reread(lists)
  {
    RereadKeys(lists);
    RereadKeys(FlattenAll(lists));
    assert FlattenAll(lists).Keys == lists.Keys;
    forall t | t in Reread(lists) ensures ListOf(Reread(FlattenAll(lists))[t]) == Reread(lists)[t] {
      ListOfFlatten(lists[FirstSpelling(lists.Keys, t)]);
    }
    SameMap(ListsOf(Reread(FlattenAll(lists))), Reread(lists));
  }

  lemma DefaultsReread(defaults: map<string, string>)
    requires LegibleDefaults(defaults)
    ensures FirstsOf(Reread(defaults)) == Reread(defaults)
  {
    forall t | t in Reread(defaults) ensures ListOf(Reread(defaults)[t]) == [Reread(defaults)[t]] {
      ListOfItem(defaults[FirstSpelling(defaults.Keys, t)]);
    }
    SameMap(FirstsOf(Reread(defaults)), Reread(defaults));
  }

  lemma ReadFromGroups(a: Associations, p: Parsed)
    requires Legible(a)
    requires GroupOf(p, DEFAULTS) == Reread(a.defaults) && GroupOf(p, ADDED) == Reread(FlattenAll(a.added))
    requires GroupOf(p, REMOVED) == Reread(FlattenAll(a.removed))
    ensures Associations(FirstsOf(GroupOf(p, DEFAULTS)), ListsOf(GroupOf(p, ADDED)), ListsOf(GroupOf(p, REMOVED)))
         == RereadAll(a)
  {
    DefaultsReread(a.defaults);
    ListsReread(a.added);
    ListsReread(a.removed);
  }

  lemma TheirGroups(a: Associations)
    ensures EntriesOf(a)[DEFAULTS] == a.defaults && EntriesOf(a)[ADDED] == FlattenAll(a.added)
    ensures EntriesOf(a)[REMOVED] == FlattenAll(a.removed)
  {
    assert DEFAULTS[0] == 'D' && ADDED[0] == 'A' && REMOVED[0] == 'R';
  }

  /** Whatever text the associations are rendered into, repeated groups, keys with locales and missing groups
      included: what is read back is the associations under trimmed keys. */
  lemma WhatIsReadBack(a: Associations, original: seq<string>)
    requires Legible(a)
    ensures ManagedGroups(a) == Some(EntriesOf(a))
    ensures AssociationsFrom(Render(EntriesOf(a), original)) == RereadAll(a)
  {
    LegibleIsWritten(a);
    GroupsReadBack(EntriesOf(a), original);
    TheirGroups(a);
    ReadFromGroups(a, ParseGroups(Render(EntriesOf(a), original)));
  }

  lemma LegibleIsUnindented(a: Associations)
    requires Legible(a)
    ensures NoneIndented(a.defaults.Keys) && NoneIndented(a.added.Keys) && NoneIndented(a.removed.Keys)
  {
  }

  lemma RereadAllExactly(a: Associations)
    requires NoneIndented(a.defaults.Keys) && NoneIndented(a.added.Keys) && NoneIndented(a.removed.Keys)
    ensures RereadAll(a) == a <==> KeysTrimmed(a)
  {
    RereadExactly(a.defaults);
    RereadExactly(a.added);
    RereadExactly(a.removed);
  }

  /** Parsing undoes rendering exactly when no key has blanks around it. */
  lemma ReadBackExactly(a: Associations, original: seq<string>)
    requires Legible(a)
    ensures ManagedGroups(a) == Some(EntriesOf(a))
    ensures AssociationsFrom(Render(EntriesOf(a), original)) == a <==> KeysTrimmed(a)
  {
    WhatIsReadBack(a, original);
    LegibleIsUnindented(a);
    RereadAllExactly(a);
  }

  /** Parsing what is rendered gives back well-formed associations. */
  lemma ParsingUndoesRendering(a: Associations, original: seq<string>)
    requires WellFormed(a)
    ensures ManagedGroups(a) == Some(EntriesOf(a))
    ensures AssociationsFrom(Render(EntriesOf(a), original)) == a
  {
    ReadBackExactly(a, original);
  }

  // ---------------------------------------------------------------- rendering again

  predicate Fixed(line: TextLine) {
    Respell(line) == line
  }

  lemma TrimmedKeysAreFixed(managed: Managed)
    requires Three(managed) && forall g | g in managed :: AllTrimmed(managed[g].Keys)
    ensures WritesOnly(Fixed, managed)
  {
    forall g, k | g in managed && k in managed[g] ensures Fixed(EntryText(k, managed[g][k])) {
      assert k in managed[g].Keys;
      TrimSpaceTrims(k);
    }
  }

  lemma FixedTextStays(text: seq<TextLine>)
    requires All(Fixed, text)
    ensures Respelled(text) == text
  {
    forall i | 0 <= i < |text| ensures Respelled(text)[i] == text[i] {
      assert text[i] in text && Fixed(text[i]);
    }
  }

  lemma FilesAreFixed(lines: seq<string>)
    ensures All(Fixed, ReadLines(lines))
  {
    ReadLinesSpeak(lines);
    forall line | line in ReadLines(lines) ensures Fixed(line) {
      var i :| 0 <= i < |lines| && line == ReadLines(lines)[i];
      assert Respelled(ReadLines(lines))[i] == ReadLines(lines)[i];
    }
  }

  lemma WellFormedIsFixed(a: Associations, original: seq<string>)
    requires WellFormed(a)
    ensures ReadLines(Render(EntriesOf(a), original)) == RenderText(EntriesOf(a), ReadLines(original)).out
  {
    LegibleIsWritten(a);
    TheThree(EntriesOf(a));
    assert FlattenAll(a.added).Keys == a.added.Keys && FlattenAll(a.removed).Keys == a.removed.Keys;
    TrimmedKeysAreFixed(EntriesOf(a));
    FilesAreFixed(original);
    AllFinished(Fixed, EntriesOf(a), ReadLines(original));
    RenderIsRead(EntriesOf(a), original);
    FixedTextStays(RenderText(EntriesOf(a), ReadLines(original)).out);
  }

  /** Rendering the same associations into what was rendered changes nothing. */
  lemma RenderingAgainChangesNothing(a: Associations, original: seq<string>)
    requires WellFormed(a)
    ensures Render(EntriesOf(a), Render(EntriesOf(a), original)) == Render(EntriesOf(a), original)
  {
    WellFormedIsFixed(a, original);
    RenderingAgain(EntriesOf(a), ReadLines(original));
  }

  // ---------------------------------------------------------------- everything else in the file

  function CurrentFrom(current: string, text: seq<TextLine>): string {
    if text == [] then current
    else match text[|text| - 1].kind
      case Header(name) => name
      case _ => CurrentFrom(current, text[..|text| - 1])
  }

  /** The lines that are not entries of a managed group: comments, blank lines, headers, junk, and every line
      of the other groups. */
  function OthersFrom(managed: Managed, current: string, text: seq<TextLine>): seq<TextLine> {
    if text == [] then []
    else
      var before, last := text[..|text| - 1], text[|text| - 1];
      OthersFrom(managed, current, before)
      + if last.kind.Entry? && CurrentFrom(current, before) in managed then [] else [last]
  }

  lemma {:induction false} OthersConcat(managed: Managed, current: string, a: seq<TextLine>, b: seq<TextLine>)
    ensures CurrentFrom(current, a + b) == CurrentFrom(CurrentFrom(current, a), b)
    ensures OthersFrom(managed, current, a + b)
         == OthersFrom(managed, current, a) + OthersFrom(managed, CurrentFrom(current, a), b)
  {
    if b == [] {
      assert a + b == a;
    } else {
      OthersConcat(managed, current, a, b[..|b| - 1]);
      assert (a + b)[..|a + b| - 1] == a + b[..|b| - 1];
    }
  }

  lemma {:induction false} OthersOfEntries(managed: Managed, current: string, entries: Entries, keys: seq<string>)
    requires current in managed && forall k | k in keys :: k in entries
    ensures CurrentFrom(current, EntryTexts(entries, keys)) == current
    ensures OthersFrom(managed, current, EntryTexts(entries, keys)) == []
  {
    if keys != [] {
      var before := keys[..|keys| - 1];
      OthersOfEntries(managed, current, entries, before);
      var lines := EntryTexts(entries, keys);
      assert lines[..|lines| - 1] == EntryTexts(entries, before);
    }
  }

  lemma {:induction false} BlanksKeepCurrent(current: string, blanks: seq<TextLine>)
    requires forall i | 0 <= i < |blanks| :: blanks[i].kind == Blank
    ensures CurrentFrom(current, blanks) == current
  {
    if blanks != [] { BlanksKeepCurrent(current, blanks[..|blanks| - 1]); }
  }

  /** The text is in the group the rendering thinks it is in, and its other lines are those of the original. */
  ghost predicate KeepsOthers(managed: Managed, r: Rendering, others: seq<TextLine>) {
    CurrentFrom("", r.out) == r.current && OthersFrom(managed, "", r.out) == others
  }

  /** Entries put in before trailing blank lines leave the other lines as they are. */
  lemma InsertedOthers(managed: Managed, body: seq<TextLine>, blanks: seq<TextLine>, group: string, keys: seq<string>)
    requires group in managed && (forall k | k in keys :: k in managed[group])
    requires CurrentFrom("", body + blanks) == group
    requires forall i | 0 <= i < |blanks| :: blanks[i].kind == Blank
    ensures var text := body + EntryTexts(managed[group], keys) + blanks;
            && CurrentFrom("", text) == group
            && OthersFrom(managed, "", text) == OthersFrom(managed, "", body + blanks)
  {
    var lines := EntryTexts(managed[group], keys);
    OthersConcat(managed, "", body, blanks);
    BlanksKeepCurrent(CurrentFrom("", body), blanks);
    OthersConcat(managed, "", body, lines);
    OthersConcat(managed, "", body + lines, blanks);
    OthersOfEntries(managed, group, managed[group], keys);
    assert OthersFrom(managed, "", body) + [] == OthersFrom(managed, "", body);
  }

  lemma FlushKeepsOthers(managed: Managed, r: Rendering, others: seq<TextLine>)
    requires KeepsOthers(managed, r, others)
    ensures KeepsOthers(managed, Flush(managed, r), others)
  {
    if r.current in managed {
      var at := BodyEnd(r.out);
      MissingAreEntries(managed, r, r.current);
      assert r.out == r.out[..at] + r.out[at..];
      InsertedOthers(managed, r.out[..at], r.out[at..], r.current, SortedKeys(Missing(managed, r, r.current)));
    }
  }

  lemma OneMoreOther(managed: Managed, text: seq<TextLine>, line: TextLine)
    ensures CurrentFrom("", text + [line]) == if line.kind.Header? then line.kind.name else CurrentFrom("", text)
    ensures OthersFrom(managed, "", text + [line])
         == OthersFrom(managed, "", text)
            + if line.kind.Entry? && CurrentFrom("", text) in managed then [] else [line]
  {
  }

  lemma HeaderKeepsOthers(managed: Managed, r: Rendering, line: TextLine, others: seq<TextLine>)
    requires KeepsOthers(managed, r, others) && line.kind.Header?
    ensures KeepsOthers(managed, RenderLine(managed, r, line), others + [line])
  {
    FlushKeepsOthers(managed, r, others);
    OneMoreOther(managed, Flush(managed, r).out, line);
  }

  lemma EntryKeepsOthers(managed: Managed, r: Rendering, line: TextLine, others: seq<TextLine>)
    requires KeepsOthers(managed, r, others) && line.kind.Entry? && r.current in managed
    ensures KeepsOthers(managed, RenderLine(managed, r, line), others)
  {
  }

  lemma LineKeepsOthers(managed: Managed, r: Rendering, line: TextLine, others: seq<TextLine>)
    requires KeepsOthers(managed, r, others)
    ensures KeepsOthers(managed, RenderLine(managed, r, line),
                        others + if line.kind.Entry? && r.current in managed then [] else [line])
  {
    assert others + [] == others;
    if line.kind.Header? {
      HeaderKeepsOthers(managed, r, line, others);
    } else if line.kind.Entry? && r.current in managed {
      EntryKeepsOthers(managed, r, line, others);
    } else {
      OneMoreOther(managed, r.out, line);
    }
  }

  ghost predicate Survive(managed: Managed, text: seq<TextLine>) {
    var r := RenderFrom(managed, START, text);
    KeepsOthers(managed, r, OthersFrom(managed, "", text)) && r.current == CurrentFrom("", text)
  }

  lemma OneMoreSurvives(managed: Managed, text: seq<TextLine>, line: TextLine, more: seq<TextLine>)
    requires Survive(managed, text) && more == text + [line]
    ensures Survive(managed, more)
  {
    RenderOne(managed, START, text, line);
    OneMoreOther(managed, text, line);
    LineKeepsOthers(managed, RenderFrom(managed, START, text), line, OthersFrom(managed, "", text));
  }

  lemma NothingSurvives(managed: Managed)
    ensures Survive(managed, [])
  {
  }

  lemma {:induction false} OthersSurvive(managed: Managed, text: seq<TextLine>)
    ensures Survive(managed, text)
  {
    if text == [] {
      NothingSurvives(managed);
    } else {
      var before, last := text[..|text| - 1], text[|text| - 1];
      OthersSurvive(managed, before);
      OneMoreSurvives(managed, before, last, text);
    }
  }

  /** A line that a new section brings besides its entries. */
  predicate IsSectionLine(managed: Managed, line: TextLine) {
    line == GAP || exists g | g in managed :: line == HeaderText(g)
  }

  ghost predicate SectionLines(managed: Managed, lines: seq<TextLine>) {
    forall line | line in lines :: IsSectionLine(managed, line)
  }

  lemma OthersOfSection(managed: Managed, current: string, gap: seq<TextLine>, group: string)
    requires gap == [] || gap == [GAP]
    ensures CurrentFrom(current, gap + [HeaderText(group)]) == group
    ensures OthersFrom(managed, current, gap + [HeaderText(group)]) == gap + [HeaderText(group)]
  {
    assert (gap + [HeaderText(group)])[..|gap|] == gap;
    if gap == [GAP] {
      assert gap[..0] == [];
      assert OthersFrom(managed, current, []) == [];
    }
  }

  lemma SectionOthers(managed: Managed, out: seq<TextLine>, section: seq<TextLine>, group: string, keys: seq<string>)
    requires group in managed && (forall k | k in keys :: k in managed[group])
    requires section == GapAfter(out) + [HeaderText(group)]
    ensures var text := out + section + EntryTexts(managed[group], keys);
            && CurrentFrom("", text) == group
            && OthersFrom(managed, "", text) == OthersFrom(managed, "", out) + section
  {
    var lines := EntryTexts(managed[group], keys);
    OthersConcat(managed, "", out, section);
    OthersOfSection(managed, CurrentFrom("", out), GapAfter(out), group);
    OthersConcat(managed, "", out + section, lines);
    OthersOfEntries(managed, group, managed[group], keys);
    var others := OthersFrom(managed, "", out) + section;
    assert others + [] == others;
  }

  lemma MoreSectionLines(managed: Managed, more: seq<TextLine>, out: seq<TextLine>, group: string)
    requires group in managed && SectionLines(managed, more)
    ensures SectionLines(managed, more + (GapAfter(out) + [HeaderText(group)]))
  {
  }

  lemma AppendKeepsOthers(managed: Managed, r: Rendering, group: string, others: seq<TextLine>, more: seq<TextLine>)
    returns (after: seq<TextLine>)
    requires group in managed && KeepsOthers(managed, r, others + more) && SectionLines(managed, more)
    ensures KeepsOthers(managed, AppendGroup(managed, r, group), others + after) && SectionLines(managed, after)
  {
    after := more;
    if Missing(managed, r, group) != {} {
      var section := GapAfter(r.out) + [HeaderText(group)];
      after := more + section;
      MissingAreEntries(managed, r, group);
      var keys := SortedKeys(Missing(managed, r, group));
      SectionOthers(managed, r.out, section, group, keys);
      assert r.out + section + EntryTexts(managed[group], keys) == AppendGroup(managed, r, group).out;
      assert others + more + section == others + after;
      MoreSectionLines(managed, more, r.out, group);
    }
  }

  lemma SectionsKeepOthers(managed: Managed, r: Rendering, others: seq<TextLine>) returns (more: seq<TextLine>)
    requires Three(managed) && KeepsOthers(managed, r, others)
    ensures KeepsOthers(managed, AppendGroups(managed, r), others + more) && SectionLines(managed, more)
  {
    assert others + [] == others;
    more := AppendKeepsOthers(managed, r, DEFAULTS, others, []);
    var r2 := AppendGroup(managed, r, DEFAULTS);
    more := AppendKeepsOthers(managed, r2, ADDED, others, more);
    var r3 := AppendGroup(managed, r2, ADDED);
    more := AppendKeepsOthers(managed, r3, REMOVED, others, more);
  }

  /** Every line that is not an entry of a managed group survives, in order; all that is added besides
      entries are blank lines and headers of new sections, at the end. */
  lemma EverythingElseSurvives(managed: Managed, text: seq<TextLine>) returns (more: seq<TextLine>)
    requires Three(managed)
    ensures OthersFrom(managed, "", RenderText(managed, text).out) == OthersFrom(managed, "", text) + more
    ensures SectionLines(managed, more)
  {
    var others := OthersFrom(managed, "", text);
    var r1 := RenderFrom(managed, START, text);
    OthersSurvive(managed, text);
    FlushKeepsOthers(managed, r1, others);
    more := SectionsKeepOthers(managed, Flush(managed, r1), others);
  }

  /** The lines of a file that are not entries of the three groups. */
  function OtherLines(managed: Managed, lines: seq<string>): seq<string> {
    Raws(OthersFrom(managed, "", ReadLines(lines)))
  }

  lemma RawsJoin(a: seq<TextLine>, b: seq<TextLine>)
    ensures Raws(a + b) == Raws(a) + Raws(b)
  {
  }

  /** Reading the entries again does not change which lines are entries. */
  lemma {:induction false} OthersRespelled(managed: Managed, text: seq<TextLine>)
    ensures CurrentFrom("", Respelled(text)) == CurrentFrom("", text)
    ensures OthersFrom(managed, "", Respelled(text)) == Respelled(OthersFrom(managed, "", text))
  {
    if text != [] {
      var before, last := text[..|text| - 1], text[|text| - 1];
      OthersRespelled(managed, before);
      assert Respelled(text)[..|text| - 1] == Respelled(before);
      RespelledJoins(OthersFrom(managed, "", before), [last]);
    }
  }

  lemma {:induction false} OthersAreLines(managed: Managed, text: seq<TextLine>)
    ensures forall line | line in OthersFrom(managed, "", text) :: line in text
  {
    if text != [] { OthersAreLines(managed, text[..|text| - 1]); }
  }

  lemma OthersAreFixed(managed: Managed, lines: seq<string>, more: seq<TextLine>)
    requires SectionLines(managed, more)
    ensures var others := OthersFrom(managed, "", ReadLines(lines)); Respelled(others + more) == others + more
  {
    FilesAreFixed(lines);
    OthersAreLines(managed, ReadLines(lines));
    var all := OthersFrom(managed, "", ReadLines(lines)) + more;
    forall line | line in all ensures Fixed(line) {
      if line in more { assert IsSectionLine(managed, line); }
    }
    FixedTextStays(all);
  }

  /** A line that a new section of the file brings besides its entries. */
  predicate NewLine(line: string) {
    line == "" || line == "[" + DEFAULTS + "]" || line == "[" + ADDED + "]" || line == "[" + REMOVED + "]"
  }

  lemma SectionLinesAreNew(managed: Managed, added: seq<TextLine>)
    requires Three(managed) && SectionLines(managed, added)
    ensures forall line | line in Raws(added) :: NewLine(line)
  {
    TheThree(managed);
    forall line | line in Raws(added) ensures NewLine(line) {
      var i :| 0 <= i < |added| && line == added[i].raw;
      assert IsSectionLine(managed, added[i]);
    }
  }

  /** Told of the file itself: every line that is not an entry of the three groups is still there, in order,
      and all that is added besides entries are gaps and headers of the three groups, at the end. */
  lemma OtherLinesSurvive(a: Associations, original: seq<string>) returns (more: seq<string>)
    requires Legible(a)
    ensures OtherLines(EntriesOf(a), Render(EntriesOf(a), original)) == OtherLines(EntriesOf(a), original) + more
    ensures forall line | line in more :: NewLine(line)
  {
    LegibleIsWritten(a);
    var managed, text := EntriesOf(a), ReadLines(original);
    RenderIsRead(managed, original);
    var added := EverythingElseSurvives(managed, text);
    more := Raws(added);
    OthersRespelled(managed, RenderText(managed, text).out);
    OthersAreFixed(managed, original, added);
    RawsJoin(OthersFrom(managed, "", text), added);
    SectionLinesAreNew(managed, added);
  }
}
