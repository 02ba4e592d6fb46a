/** The loops of desktop/parser.go and desktop/mimeapps.go. */
module MimeappsWriter {
  import opened Wrappers
  import opened Text
  import opened MimeappsLists
  import opened Mimeapps
  import opened MimeappsDefaults

  // ---------------------------------------------------------------- parsing

  /** One turn of the scanner loop. */
  method ScanLine(groups: map<string, map<string, string>>, current: Option<string>, raw: string)
    returns (after: map<string, map<string, string>>, now: Option<string>)
    requires current.Some? ==> current.value in groups
    ensures Parsed(after, now) == ParseLine(Parsed(groups, current), ReadLine(raw))
    ensures now.Some? ==> now.value in after
  {
    after, now := groups, current;
    var line := TrimSpace(raw);
    if line == "" || line[0] == '#' { return; }
    if line[0] == '[' && line[|line| - 1] == ']' {
      var name := line[1..|line| - 1];
      if name !in groups { after := groups[name := map[]]; }
      now := Some(name);
      return;
    }
    if current == None { return; }
    var eq := IndexOfChar(line, '=');
    if eq == 0 || eq == |line| { return; }
    var key := TrimSpace(line[..eq]);
    var bracket := IndexOfChar(key, '[');
    if 0 < bracket < |key| { key := key[..bracket]; }
    if key in groups[current.value] { return; }
    after := groups[current.value := groups[current.value][key := TrimSpace(line[eq + 1..])]];
  }

  /** The scanner loop; the current group is told by its name. */
  method ScanGroups(lines: seq<string>) returns (groups: map<string, map<string, string>>, current: Option<string>)
    ensures Parsed(groups, current) == ParseGroups(lines)
  {
    groups, current := map[], None;
    for i := 0 to |lines|
      invariant Parsed(groups, current) == ParseGroups(lines[..i])
      invariant current.Some? ==> current.value in groups
    {
      OneMoreParsed(lines[..i], lines[i]);
      assert lines[..i + 1] == lines[..i] + [lines[i]];
      groups, current := ScanLine(groups, current, lines[i]);
    }
    assert lines[..|lines|] == lines;
  }

  // ---------------------------------------------------------------- rendering

  /** The tags of the text agree with what trimming its lines shows. */
  ghost predicate BlanksShow(text: seq<TextLine>) {
    forall i | 0 <= i < |text| :: text[i].kind == Blank <==> TrimSpace(text[i].raw) == ""
  }

  lemma EntryShows(key: string, value: string)
    ensures TrimSpace(key + "=" + value) != ""
  {
    assert (key + "=" + value)[|key|] == '=';
    ShownWhole(key + "=" + value, '=');
  }

  lemma EntriesShow(entries: Entries, keys: seq<string>)
    requires forall k | k in keys :: k in entries
    ensures BlanksShow(EntryTexts(entries, keys))
  {
    forall i | 0 <= i < |keys| ensures TrimSpace(EntryTexts(entries, keys)[i].raw) != "" {
      EntryShows(keys[i], entries[keys[i]]);
    }
  }

  function KeySet(keys: seq<string>): set<string> {
    set k | k in keys
  }

  method EntryLines(group: string, entries: Entries, keys: seq<string>, marked: set<(string, string)>)
    returns (lines: seq<string>, written: set<(string, string)>)
    requires forall k | k in keys :: k in entries
    ensures lines == Raws(EntryTexts(entries, keys))
    ensures written == marked + Marks(group, KeySet(keys))
  {
    lines, written := [], marked;
    for i := 0 to |keys|
      invariant |lines| == i && forall j | 0 <= j < i :: lines[j] == EntryText(keys[j], entries[keys[j]]).raw
      invariant written == marked + Marks(group, KeySet(keys[..i]))
    {
      assert keys[..i + 1] == keys[..i] + [keys[i]];
      assert KeySet(keys[..i + 1]) == KeySet(keys[..i]) + {keys[i]};
      written := written + {(group, keys[i])};
      lines := lines + [keys[i] + "=" + entries[keys[i]]];
    }
    assert keys[..|keys|] == keys;
  }

  lemma BodyEndIs(text: seq<TextLine>, at: nat)
    requires at <= |text| && (forall i | at <= i < |text| :: text[i].kind == Blank)
    requires at > 0 ==> text[at - 1].kind != Blank
    ensures BodyEnd(text) == at
  {
  }

  lemma Spliced(out: seq<TextLine>, at: nat, texts: seq<TextLine>)
    requires at <= |out| && BlanksShow(out) && BlanksShow(texts)
    ensures BlanksShow(out[..at] + texts + out[at..])
    ensures Raws(out[..at] + texts + out[at..]) == Raws(out)[..at] + Raws(texts) + Raws(out)[at..]
  {
  }

  /** What a flush does to the lines. */
  lemma FlushLines(managed: Managed, r: Rendering, missing: set<string>, at: nat)
    requires BlanksShow(r.out) && r.current in managed && missing == Missing(managed, r, r.current)
    requires at <= |r.out| && (forall i | at <= i < |r.out| :: r.out[i].kind == Blank)
    requires at > 0 ==> r.out[at - 1].kind != Blank
    ensures KeySet(SortedKeys(missing)) == missing && forall k | k in SortedKeys(missing) :: k in managed[r.current]
    ensures Flush(managed, r).written == r.written + Marks(r.current, KeySet(SortedKeys(missing)))
    ensures Raws(Flush(managed, r).out)
         == Raws(r.out)[..at] + Raws(EntryTexts(managed[r.current], SortedKeys(missing))) + Raws(r.out)[at..]
    ensures BlanksShow(Flush(managed, r).out)
  {
    BodyEndIs(r.out, at);
    SortedKeysAreTheKeys(missing);
    EntriesShow(managed[r.current], SortedKeys(missing));
    Spliced(r.out, at, EntryTexts(managed[r.current], SortedKeys(missing)));
  }

  method FlushMissing(managed: Managed, group: string, lines: seq<string>, marked: set<(string, string)>,
                      ghost r: Rendering)
    returns (out: seq<string>, written: set<(string, string)>)
    requires lines == Raws(r.out) && group == r.current && marked == r.written && BlanksShow(r.out)
    ensures out == Raws(Flush(managed, r).out) && written == Flush(managed, r).written
    ensures BlanksShow(Flush(managed, r).out)
  {
    out, written := lines, marked;
    if group !in managed { return; }
    var entries := managed[group];
    var missing := set k | k in entries && (group, k) !in written;
    var keys := SortedKeys(missing);
    var insertAt := |out|;
    while insertAt > 0 && TrimSpace(out[insertAt - 1]) == ""
      invariant 0 <= insertAt <= |out| && forall i | insertAt <= i < |out| :: r.out[i].kind == Blank
    {
      insertAt := insertAt - 1;
    }
    FlushLines(managed, r, missing, insertAt);
    var added;
    added, written := EntryLines(group, entries, keys, written);
    out := out[..insertAt] + added + out[insertAt..];
  }

  lemma OneMoreShows(text: seq<TextLine>, line: TextLine)
    requires BlanksShow(text) && (line.kind == Blank <==> TrimSpace(line.raw) == "")
    ensures BlanksShow(text + [line]) && Raws(text + [line]) == Raws(text) + [line.raw]
  {
  }

  lemma KeptLine(managed: Managed, r: Rendering, raw: string)
    requires BlanksShow(r.out) && !Classify(raw).Header? && (Classify(raw).Entry? ==> r.current !in managed)
    ensures RenderLine(managed, r, ReadLine(raw)) == Keep(r, ReadLine(raw))
    ensures BlanksShow(r.out + [ReadLine(raw)]) && Raws(r.out + [ReadLine(raw)]) == Raws(r.out) + [raw]
  {
  }

  lemma HeaderLine(managed: Managed, r: Rendering, raw: string)
    requires BlanksShow(Flush(managed, r).out) && Classify(raw).Header?
    ensures var after := RenderLine(managed, r, ReadLine(raw));
            && Raws(after.out) == Raws(Flush(managed, r).out) + [raw] && after.current == Classify(raw).name
            && after.written == Flush(managed, r).written && BlanksShow(after.out)
  {
  }

  lemma ReplacedLine(managed: Managed, r: Rendering, raw: string)
    requires BlanksShow(r.out) && Classify(raw).Entry? && r.current in managed
    ensures var key, after := Classify(raw).key, RenderLine(managed, r, ReadLine(raw));
            if key !in managed[r.current] || (r.current, key) in r.written then after == r
            else && Raws(after.out) == Raws(r.out) + [key + "=" + managed[r.current][key]]
                 && after.current == r.current && after.written == r.written + {(r.current, key)}
                 && BlanksShow(after.out)
  {
    var key := Classify(raw).key;
    if key in managed[r.current] {
      EntryShows(key, managed[r.current][key]);
      OneMoreShows(r.out, EntryText(key, managed[r.current][key]));
    }
  }

  method RenderOneLine(managed: Managed, line: string, group: string, lines: seq<string>, marked: set<(string, string)>,
                       ghost r: Rendering)
    returns (out: seq<string>, current: string, written: set<(string, string)>)
    requires lines == Raws(r.out) && group == r.current && marked == r.written && BlanksShow(r.out)
    ensures var after := RenderLine(managed, r, ReadLine(line));
            out == Raws(after.out) && current == after.current && written == after.written && BlanksShow(after.out)
  {
    out, current, written := lines, group, marked;
    var trimmed := TrimSpace(line);
    if trimmed != "" && trimmed[0] == '[' && trimmed[|trimmed| - 1] == ']' {
      out, written := FlushMissing(managed, current, out, written, r);
      current := trimmed[1..|trimmed| - 1];
      out := out + [line];
      HeaderLine(managed, r, line);
      return;
    }
    if current !in managed {
      out := out + [line];
      KeptLine(managed, r, line);
      return;
    }
    if trimmed == "" || trimmed[0] == '#' {
      out := out + [line];
      KeptLine(managed, r, line);
      return;
    }
    var eq := IndexOfChar(trimmed, '=');
    if eq == 0 || eq == |trimmed| {
      out := out + [line];
      KeptLine(managed, r, line);
      return;
    }
    var key := TrimSpace(trimmed[..eq]);
    ReplacedLine(managed, r, line);
    if key !in managed[current] || (current, key) in written { return; }
    written := written + {(current, key)};
    out := out + [key + "=" + managed[current][key]];
  }

  lemma ShowingJoins(a: seq<TextLine>, b: seq<TextLine>)
    requires BlanksShow(a) && BlanksShow(b)
    ensures BlanksShow(a + b)
  {
    forall i | 0 <= i < |a + b| ensures (a + b)[i].kind == Blank <==> TrimSpace((a + b)[i].raw) == "" {
      if i < |a| { assert (a + b)[i] == a[i]; } else { assert (a + b)[i] == b[i - |a|]; }
    }
  }

  lemma HeaderShows(group: string)
    ensures BlanksShow([HeaderText(group)])
  {
    var line := "[" + group + "]";
    assert line[0] == '[' && line[0] in line;
    ShownWhole(line, '[');
  }

  lemma SectionShows(out: seq<TextLine>, group: string, texts: seq<TextLine>)
    requires BlanksShow(out) && BlanksShow(texts)
    ensures BlanksShow(out + GapAfter(out) + [HeaderText(group)] + texts)
  {
    HeaderShows(group);
    ShowingJoins(out, GapAfter(out));
    ShowingJoins(out + GapAfter(out), [HeaderText(group)]);
    ShowingJoins(out + GapAfter(out) + [HeaderText(group)], texts);
  }

  function GapLines(lines: seq<string>): seq<string> {
    if |lines| > 0 && TrimSpace(lines[|lines| - 1]) != "" then [""] else []
  }

  lemma GapLinesAre(out: seq<TextLine>)
    requires BlanksShow(out)
    ensures Raws(GapAfter(out)) == GapLines(Raws(out))
  {
  }

  lemma SectionRaws(out: seq<TextLine>, gap: seq<TextLine>, group: string, texts: seq<TextLine>)
    ensures Raws(out + gap + [HeaderText(group)] + texts) == Raws(out) + Raws(gap) + ["[" + group + "]"] + Raws(texts)
  {
  }

  /** What a new section does to the lines. */
  lemma AppendedLines(managed: Managed, r: Rendering, group: string, missing: set<string>, lines: seq<string>)
    requires BlanksShow(r.out) && group in managed && missing == Missing(managed, r, group) && lines == Raws(r.out)
    ensures KeySet(SortedKeys(missing)) == missing && forall k | k in SortedKeys(missing) :: k in managed[group]
    ensures var keys, after := SortedKeys(missing), AppendGroup(managed, r, group);
            if keys == [] then after == r
            else && after.written == r.written + Marks(group, KeySet(keys))
                 && BlanksShow(after.out)
                 && Raws(after.out) ==
                    lines + GapLines(lines) + ["[" + group + "]"] + Raws(EntryTexts(managed[group], keys))
  {
    SortedKeysAreTheKeys(missing);
    var texts := EntryTexts(managed[group], SortedKeys(missing));
    EntriesShow(managed[group], SortedKeys(missing));
    SectionShows(r.out, group, texts);
    SectionRaws(r.out, GapAfter(r.out), group, texts);
    GapLinesAre(r.out);
  }

  method AppendSection(managed: Managed, group: string, lines: seq<string>, marked: set<(string, string)>,
                       ghost r: Rendering)
    returns (out: seq<string>, written: set<(string, string)>)
    requires group in managed && lines == Raws(r.out) && marked == r.written && BlanksShow(r.out)
    ensures out == Raws(AppendGroup(managed, r, group).out) && written == AppendGroup(managed, r, group).written
    ensures BlanksShow(AppendGroup(managed, r, group).out)
  {
    out, written := lines, marked;
    var entries := managed[group];
    var missing := set k | k in entries && (group, k) !in written;
    ghost var after := AppendGroup(managed, r, group);
    var pending := SortedKeys(missing);
    AppendedLines(managed, r, group, missing, lines);
    if |pending| == 0 { return; }
    if |out| > 0 && TrimSpace(out[|out| - 1]) != "" { out := out + [""]; }
    assert out == lines + GapLines(lines);
    out := out + ["[" + group + "]"];
    var added;
    added, written := EntryLines(group, entries, pending, written);
    out := out + added;
  }

  /** The whole rewriting; no lines means a field would corrupt the file. */
  method RenderMimeapps(original: seq<string>, a: Associations) returns (rendered: Option<seq<string>>)
    ensures rendered == match ManagedGroups(a)
                        case None => None
                        case Some(managed) => Some(Render(managed, original))
  {
    var safe := ManagedGroups(a);
    if safe == None { return None; }
    var managed := safe.value;
    var out, current, written := [], "", {};
    ghost var text := ReadLines(original);
    assert text[..0] == [];
    for i := 0 to |original|
      invariant var r := RenderFrom(managed, START, text[..i]);
                out == Raws(r.out) && current == r.current && written == r.written && BlanksShow(r.out)
    {
      assert text[..i + 1][..i] == text[..i];
      ghost var r := RenderFrom(managed, START, text[..i]);
      out, current, written := RenderOneLine(managed, original[i], current, out, written, r);
    }
    assert text[..|original|] == text;
    ghost var r := RenderFrom(managed, START, text);
    out, written := FlushMissing(managed, current, out, written, r);
    r := Flush(managed, r);
    out, written := AppendSection(managed, DEFAULTS, out, written, r);
    r := AppendGroup(managed, r, DEFAULTS);
    out, written := AppendSection(managed, ADDED, out, written, r);
    r := AppendGroup(managed, r, ADDED);
    out, written := AppendSection(managed, REMOVED, out, written, r);
    return Some(out);
  }

  // ---------------------------------------------------------------- setting defaults

  method UpdateDefaults(a: Associations, mimeTypes: seq<string>, id: string) returns (updated: Associations)
    ensures updated == WithDefaults(a, mimeTypes, id)
  {
    updated := a;
    for i := 0 to |mimeTypes|
      invariant updated == WithDefaults(a, mimeTypes[..i], id)
    {
      assert mimeTypes[..i + 1][..i] == mimeTypes[..i];
      var mimeType := mimeTypes[i];
      if mimeType == "" { continue; }
      ghost var was := updated;
      updated := updated.(defaults := updated.defaults[mimeType := id]);
      var existing := ListAt(updated.added, mimeType);
      if id !in existing { updated := updated.(added := updated.added[mimeType := existing + [id]]); }
      if mimeType !in updated.removed { continue; }
      var removed := updated.removed[mimeType];
      var filtered := [];
      for j := 0 to |removed|
        invariant filtered == Without(removed[..j], id)
      {
        assert removed[..j + 1][..j] == removed[..j];
        if removed[j] != id { filtered := filtered + [removed[j]]; }
      }
      assert removed[..|removed|] == removed;
      if filtered == [] {
        updated := updated.(removed := map k | k in updated.removed && k != mimeType :: updated.removed[k]);
      } else {
        updated := updated.(removed := updated.removed[mimeType := filtered]);
      }
      assert updated == WithDefault(was, mimeType, id);
    }
    assert mimeTypes[..|mimeTypes|] == mimeTypes;
  }

  /** The file after setDefaultAssociations; the lock and the write itself are not part of this. */
  method SetDefaultAssociations(original: seq<string>, mimeTypes: seq<string>, desktopID: string)
    returns (rendered: Option<seq<string>>)
    ensures var a := WithDefaults(AssociationsFrom(original), mimeTypes, DesktopId(desktopID));
            rendered == match ManagedGroups(a)
                        case None => None
                        case Some(managed) => Some(Render(managed, original))
  {
    var id := desktopID;
    if !(|id| >= 8 && id[|id| - 8..] == ".desktop") { id := id + ".desktop"; }
    var a := UpdateDefaults(AssociationsFrom(original), mimeTypes, id);
    rendered := RenderMimeapps(original, a);
  }
}
