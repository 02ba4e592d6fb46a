/** What the rendering loop keeps: the text so far renders to itself, and is made of known lines. */
module MimeappsRendering {
  import opened Wrappers
  import opened Text
  import opened MimeappsLists
  import opened Mimeapps

  // ---------------------------------------------------------------- folds over concatenations

  ghost predicate AllDifferent(keys: seq<string>) {
    forall i, j | 0 <= i < j < |keys| :: keys[i] != keys[j]
  }

  lemma LastIsNew(entries: Entries, keys: seq<string>)
    requires keys != [] && AllDifferent(keys) && forall k | k in keys :: k in entries
    ensures var before, last := keys[..|keys| - 1], keys[|keys| - 1];
            && last in keys && last !in before && AllDifferent(before)
            && EntryTexts(entries, keys) == EntryTexts(entries, before) + [EntryText(last, entries[last])]
            && (set k | k in keys) == (set k | k in before) + {last}
  {
  }

  lemma {:induction false} RenderConcat(managed: Managed, r: Rendering, a: seq<TextLine>, b: seq<TextLine>)
    ensures RenderFrom(managed, r, a + b) == RenderFrom(managed, RenderFrom(managed, r, a), b)
  {
    if b == [] {
      assert a + b == a;
    } else {
      RenderConcat(managed, r, a, b[..|b| - 1]);
      assert (a + b)[..|a + b| - 1] == a + b[..|b| - 1];
    }
  }

  lemma RenderOne(managed: Managed, r: Rendering, a: seq<TextLine>, line: TextLine)
    ensures RenderFrom(managed, r, a + [line]) == RenderLine(managed, RenderFrom(managed, r, a), line)
  {
  }

  lemma {:induction false} RenderBlanks(managed: Managed, r: Rendering, blanks: seq<TextLine>)
    requires forall i | 0 <= i < |blanks| :: blanks[i].kind == Blank
    ensures RenderFrom(managed, r, blanks) == r.(out := r.out + blanks)
  {
    if blanks == [] {
      assert r.out + blanks == r.out;
    } else {
      RenderBlanks(managed, r, blanks[..|blanks| - 1]);
      assert r.out + blanks == r.out + blanks[..|blanks| - 1] + [blanks[|blanks| - 1]];
    }
  }

  lemma MarksMore(group: string, written: set<(string, string)>, keys: set<string>, key: string)
    ensures written + Marks(group, keys + {key}) == written + Marks(group, keys) + {(group, key)}
  {
  }

  /** Entries of the current group that are not in the text yet are taken as they stand. */
  lemma {:induction false} RenderEntries(managed: Managed, r: Rendering, keys: seq<string>)
    requires r.current in managed && forall k | k in keys :: k in managed[r.current]
    requires forall k | k in keys :: (r.current, k) !in r.written
    requires AllDifferent(keys)
    ensures RenderFrom(managed, r, EntryTexts(managed[r.current], keys))
         == Rendering(r.out + EntryTexts(managed[r.current], keys), r.current,
                      r.written + Marks(r.current, set k | k in keys))
  {
    var g, entries := r.current, managed[r.current];
    if keys == [] {
      assert r.out + EntryTexts(entries, keys) == r.out;
      assert r.written + Marks(g, set k | k in keys) == r.written;
    } else {
      var before, last := keys[..|keys| - 1], keys[|keys| - 1];
      LastIsNew(entries, keys);
      RenderEntries(managed, r, before);
      var lines := EntryTexts(entries, before);
      RenderOne(managed, r, lines, EntryText(last, entries[last]));
      assert r.out + (lines + [EntryText(last, entries[last])]) == r.out + lines + [EntryText(last, entries[last])];
      MarksMore(g, r.written, (set k | k in before), last);
    }
  }

  // ---------------------------------------------------------------- the invariant of the rendering loop

  /** Rendering the text so far gives the text so far. */
  ghost predicate Steady(managed: Managed, r: Rendering) {
    RenderFrom(managed, START, r.out) == r
  }

  predicate Full(managed: Managed, r: Rendering) {
    r.current in managed ==> Missing(managed, r, r.current) == {}
  }

  lemma InsertedIsSteady(managed: Managed, r: Rendering, body: seq<TextLine>, blanks: seq<TextLine>, keys: seq<string>,
                         added: set<string>)
    requires r.current in managed && Steady(managed, r) && r.out == body + blanks
    requires forall i | 0 <= i < |blanks| :: blanks[i].kind == Blank
    requires AllDifferent(keys) && (forall k | k in keys :: k in managed[r.current] && (r.current, k) !in r.written)
    requires added == set k | k in keys
    ensures Steady(managed, Rendering(body + EntryTexts(managed[r.current], keys) + blanks, r.current,
                                      r.written + Marks(r.current, added)))
  {
    var g := r.current;
    var lines := EntryTexts(managed[g], keys);
    var s := RenderFrom(managed, START, body);
    RenderConcat(managed, START, body, blanks);
    RenderBlanks(managed, s, blanks);
    assert s.out + blanks == body + blanks && |s.out| == |body|;
    assert s.out == (s.out + blanks)[..|body|] == body;
    assert s == Rendering(body, g, r.written);
    RenderConcat(managed, START, body, lines);
    RenderConcat(managed, START, body + lines, blanks);
    RenderEntries(managed, s, keys);
    RenderBlanks(managed, RenderFrom(managed, s, lines), blanks);
  }

  lemma MissingKeys(managed: Managed, r: Rendering)
    requires r.current in managed
    ensures var missing := Missing(managed, r, r.current);
            var keys := SortedKeys(missing);
            && AllDifferent(keys) && missing == (set k | k in keys)
            && forall k | k in keys :: k in managed[r.current] && (r.current, k) !in r.written
  {
    SortedKeysAreTheKeys(Missing(managed, r, r.current));
  }

  lemma FlushKeeps(managed: Managed, r: Rendering)
    requires Steady(managed, r)
    ensures Steady(managed, Flush(managed, r))
  {
    if r.current in managed {
      var missing, at := Missing(managed, r, r.current), BodyEnd(r.out);
      MissingKeys(managed, r);
      assert r.out == r.out[..at] + r.out[at..];
      InsertedIsSteady(managed, r, r.out[..at], r.out[at..], SortedKeys(missing), missing);
    }
  }

  lemma FlushFills(managed: Managed, r: Rendering)
    ensures Full(managed, Flush(managed, r)) && Flush(managed, r).current == r.current
    ensures r.written <= Flush(managed, r).written
    ensures Full(managed, r) ==> Flush(managed, r) == r
  {
  }

  lemma EntryKeeps(managed: Managed, r: Rendering, key: string)
    requires Steady(managed, r) && r.current in managed
    requires key in managed[r.current] && (r.current, key) !in r.written
    ensures Steady(managed, Rendering(r.out + [EntryText(key, managed[r.current][key])], r.current,
                                      r.written + {(r.current, key)}))
  {
    assert r.out == r.out + [];
    assert EntryTexts(managed[r.current], [key]) == [EntryText(key, managed[r.current][key])];
    assert Marks(r.current, {key}) == {(r.current, key)};
    assert {key} == set k | k in [key];
    InsertedIsSteady(managed, r, r.out, [], [key], {key});
    assert r.out + [EntryText(key, managed[r.current][key])] + [] == r.out + [EntryText(key, managed[r.current][key])];
  }

  lemma HeaderKeeps(managed: Managed, r: Rendering, line: TextLine)
    requires Steady(managed, r) && line.kind.Header?
    ensures Steady(managed, RenderLine(managed, r, line))
  {
    var f := Flush(managed, r);
    FlushKeeps(managed, r);
    FlushFills(managed, r);
    FlushFills(managed, f);
    RenderOne(managed, START, f.out, line);
  }

  lemma LineKeeps(managed: Managed, r: Rendering, line: TextLine)
    requires Steady(managed, r)
    ensures Steady(managed, RenderLine(managed, r, line))
  {
    if line.kind.Header? {
      HeaderKeeps(managed, r, line);
    } else if line.kind.Entry? && r.current in managed {
      if line.kind.key in managed[r.current] && (r.current, line.kind.key) !in r.written {
        EntryKeeps(managed, r, line.kind.key);
      }
    } else {
      RenderOne(managed, START, r.out, line);
    }
  }

  lemma {:induction false} LinesKeep(managed: Managed, text: seq<TextLine>)
    ensures Steady(managed, RenderFrom(managed, START, text))
  {
    if text != [] {
      LinesKeep(managed, text[..|text| - 1]);
      LineKeeps(managed, RenderFrom(managed, START, text[..|text| - 1]), text[|text| - 1]);
    }
  }

  // ---------------------------------------------------------------- the groups at the end

  lemma HeaderAfterGap(managed: Managed, r: Rendering, group: string)
    requires Full(managed, r)
    ensures RenderLine(managed, RenderFrom(managed, r, GapAfter(r.out)), HeaderText(group))
         == Rendering(r.out + GapAfter(r.out) + [HeaderText(group)], group, r.written)
  {
    RenderBlanks(managed, r, GapAfter(r.out));
    FlushFills(managed, RenderFrom(managed, r, GapAfter(r.out)));
  }

  /** A new section is rendered step by step: a gap, a header, the missing entries. */
  lemma AppendIsFlush(managed: Managed, r: Rendering, group: string)
    requires group in managed && Full(managed, r) && Missing(managed, r, group) != {}
    ensures AppendGroup(managed, r, group)
         == Flush(managed, RenderLine(managed, RenderFrom(managed, r, GapAfter(r.out)), HeaderText(group)))
  {
    HeaderAfterGap(managed, r, group);
    var t := Rendering(r.out + GapAfter(r.out) + [HeaderText(group)], group, r.written);
    assert Missing(managed, t, group) == Missing(managed, r, group);
    assert BodyEnd(t.out) == |t.out| && t.out[..|t.out|] == t.out;
  }

  ghost predicate Kept(managed: Managed, r: Rendering) {
    Steady(managed, r) && Full(managed, r)
  }

  lemma GapKeeps(managed: Managed, r: Rendering)
    requires Steady(managed, r)
    ensures Steady(managed, RenderFrom(managed, r, GapAfter(r.out)))
  {
    if GapAfter(r.out) != [] {
      RenderOne(managed, r, [], GAP);
      assert [] + [GAP] == GapAfter(r.out);
      LineKeeps(managed, r, GAP);
    }
  }

  lemma AppendKeeps(managed: Managed, r: Rendering, group: string)
    requires group in managed && Kept(managed, r)
    ensures var a := AppendGroup(managed, r, group);
            Kept(managed, a) && Missing(managed, a, group) == {} && r.written <= a.written
  {
    if Missing(managed, r, group) != {} {
      var gap := GapAfter(r.out);
      AppendIsFlush(managed, r, group);
      var s := RenderFrom(managed, r, gap);
      GapKeeps(managed, r);
      LineKeeps(managed, s, HeaderText(group));
      var t := RenderLine(managed, s, HeaderText(group));
      FlushKeeps(managed, t);
      FlushFills(managed, t);
    }
  }

  lemma TheThree(managed: Managed)
    requires Three(managed)
    ensures DEFAULTS in managed && ADDED in managed && REMOVED in managed && "" !in managed
    ensures forall g | g in managed :: g == DEFAULTS || g == ADDED || g == REMOVED
  {
  }

  lemma MissingShrinks(managed: Managed, r: Rendering, s: Rendering, group: string)
    requires group in managed && r.written <= s.written
    ensures Missing(managed, s, group) <= Missing(managed, r, group)
  {
  }

  lemma SectionsKeep(managed: Managed, r: Rendering)
    requires Three(managed) && Kept(managed, r)
    ensures Kept(managed, AppendGroups(managed, r))
    ensures forall g | g in managed :: Missing(managed, AppendGroups(managed, r), g) == {}
  {
    TheThree(managed);
    AppendKeeps(managed, r, DEFAULTS);
    var r2 := AppendGroup(managed, r, DEFAULTS);
    AppendKeeps(managed, r2, ADDED);
    var r3 := AppendGroup(managed, r2, ADDED);
    AppendKeeps(managed, r3, REMOVED);
    var r4 := AppendGroup(managed, r3, REMOVED);
    MissingShrinks(managed, r2, r4, DEFAULTS);
    MissingShrinks(managed, r3, r4, ADDED);
  }

  /** What holds of the finished text. */
  lemma FinishedKeeps(managed: Managed, text: seq<TextLine>)
    requires Three(managed)
    ensures Kept(managed, RenderText(managed, text))
    ensures forall g | g in managed :: Missing(managed, RenderText(managed, text), g) == {}
  {
    TheThree(managed);
    var r := RenderFrom(managed, START, text);
    LinesKeep(managed, text);
    FlushKeeps(managed, r);
    FlushFills(managed, r);
    SectionsKeep(managed, Flush(managed, r));
  }

  /** Rendering again changes nothing. */
  lemma RenderingAgain(managed: Managed, text: seq<TextLine>)
    requires Three(managed)
    ensures RenderText(managed, RenderText(managed, text).out) == RenderText(managed, text)
  {
    FinishedKeeps(managed, text);
    FlushFills(managed, RenderText(managed, text));
  }

  // ---------------------------------------------------------------- which lines a text is made of

  predicate All(ok: TextLine -> bool, text: seq<TextLine>) {
    forall line | line in text :: ok(line)
  }

  /** Everything the rendering writes of its own is of the kind. */
  ghost predicate WritesOnly(ok: TextLine -> bool, managed: Managed) {
    && ok(GAP)
    && (forall g | g in managed :: ok(HeaderText(g)))
    && (forall g, k | g in managed && k in managed[g] :: ok(EntryText(k, managed[g][k])))
  }

  lemma AllJoins(ok: TextLine -> bool, a: seq<TextLine>, b: seq<TextLine>)
    ensures All(ok, a + b) <==> All(ok, a) && All(ok, b)
  {
    assert forall line :: line in a + b <==> line in a || line in b;
  }

  lemma AllEntries(ok: TextLine -> bool, managed: Managed, group: string, keys: seq<string>)
    requires WritesOnly(ok, managed) && group in managed && forall k | k in keys :: k in managed[group]
    ensures All(ok, EntryTexts(managed[group], keys))
  {
    forall line | line in EntryTexts(managed[group], keys) ensures ok(line) {
      var i :| 0 <= i < |keys| && line == EntryText(keys[i], managed[group][keys[i]]);
      assert keys[i] in keys;
    }
  }

  lemma AllFlushed(ok: TextLine -> bool, managed: Managed, r: Rendering)
    requires WritesOnly(ok, managed) && All(ok, r.out)
    ensures All(ok, Flush(managed, r).out)
  {
    if r.current in managed {
      MissingAreEntries(managed, r, r.current);
      var keys, at := SortedKeys(Missing(managed, r, r.current)), BodyEnd(r.out);
      AllEntries(ok, managed, r.current, keys);
      assert r.out == r.out[..at] + r.out[at..];
      AllJoins(ok, r.out[..at], r.out[at..]);
      AllJoins(ok, r.out[..at], EntryTexts(managed[r.current], keys));
      AllJoins(ok, r.out[..at] + EntryTexts(managed[r.current], keys), r.out[at..]);
    }
  }

  lemma AllInLine(ok: TextLine -> bool, managed: Managed, r: Rendering, line: TextLine)
    requires WritesOnly(ok, managed) && All(ok, r.out) && ok(line)
    ensures All(ok, RenderLine(managed, r, line).out)
  {
    if line.kind.Header? { AllFlushed(ok, managed, r); }
  }

  lemma {:induction false} AllRendered(ok: TextLine -> bool, managed: Managed, text: seq<TextLine>)
    requires WritesOnly(ok, managed) && All(ok, text)
    ensures All(ok, RenderFrom(managed, START, text).out)
  {
    if text != [] {
      var before, last := text[..|text| - 1], text[|text| - 1];
      assert text == before + [last];
      AllJoins(ok, before, [last]);
      assert last in [last];
      AllRendered(ok, managed, before);
      AllInLine(ok, managed, RenderFrom(managed, START, before), last);
    }
  }

  lemma AllAppended(ok: TextLine -> bool, managed: Managed, r: Rendering, group: string)
    requires WritesOnly(ok, managed) && group in managed && All(ok, r.out)
    ensures All(ok, AppendGroup(managed, r, group).out)
  {
    MissingAreEntries(managed, r, group);
    var gap, lines := GapAfter(r.out), EntryTexts(managed[group], SortedKeys(Missing(managed, r, group)));
    AllEntries(ok, managed, group, SortedKeys(Missing(managed, r, group)));
    AllJoins(ok, r.out, gap);
    AllJoins(ok, r.out + gap, [HeaderText(group)]);
    AllJoins(ok, r.out + gap + [HeaderText(group)], lines);
  }

  /** A finished text holds lines of the original and what the rendering writes, and nothing else. */
  lemma AllFinished(ok: TextLine -> bool, managed: Managed, text: seq<TextLine>)
    requires Three(managed) && WritesOnly(ok, managed) && All(ok, text)
    ensures All(ok, RenderText(managed, text).out)
  {
    TheThree(managed);
    var r := RenderFrom(managed, START, text);
    AllRendered(ok, managed, text);
    AllFlushed(ok, managed, r);
    var r1 := Flush(managed, r);
    AllAppended(ok, managed, r1, DEFAULTS);
    var r2 := AppendGroup(managed, r1, DEFAULTS);
    AllAppended(ok, managed, r2, ADDED);
    AllAppended(ok, managed, AppendGroup(managed, r2, ADDED), REMOVED);
  }
}
