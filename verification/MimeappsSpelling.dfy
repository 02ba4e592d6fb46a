/** What a rendered text says when it is read again. A key is written as it is and read without the blanks
    around it, so keys that differ only in blanks fall together; of those the first one written counts. */
module MimeappsSpelling {
  import opened Wrappers
  import opened Text
  import opened MimeappsLists
  import opened Mimeapps
  import opened MimeappsRendering

  // ---------------------------------------------------------------- keys that fall together

  /** The keys that are read as one. */
  function Spellings(keys: set<string>, key: string): set<string> {
    set k | k in keys && TrimSpace(k) == key
  }

  function Trims(keys: set<string>): set<string> {
    set k | k in keys :: TrimSpace(k)
  }

  /** Of the keys that are read as one, the first in byte order. */
  function FirstSpelling(keys: set<string>, key: string): (k: string)
    requires key in Trims(keys)
    ensures k in keys && TrimSpace(k) == key
  {
    assert Spellings(keys, key) != {} by {
      var k :| k in keys && TrimSpace(k) == key;
      assert k in Spellings(keys, key);
    }
    LeastOf(Spellings(keys, key))
  }

  /** A map after writing and reading: every key trimmed, with the value of its first spelling. */
  function Reread<V>(m: map<string, V>): map<string, V> {
    map t | t in Trims(m.Keys) :: m[FirstSpelling(m.Keys, t)]
  }

  /** No key begins with a blank. */
  predicate NoneIndented(keys: set<string>) {
    forall k | k in keys :: k == "" || !IsSpace(k[0])
  }

  predicate AllTrimmed(keys: set<string>) {
    forall k | k in keys :: Trimmed(k)
  }

  lemma {:induction false} PrefixComesFirst(s: string, n: nat)
    requires n <= |s|
    ensures CompareBytes(s[..n], s) <= 0
  {
    if n > 0 {
      assert s[..n][1..] == s[1..][..n - 1];
      PrefixComesFirst(s[1..], n - 1);
    }
  }

  lemma LeastIsLeast(keys: set<string>, k: string)
    requires IsLeast(keys, k)
    ensures LeastOf(keys) == k
  {
    CompareBytesLaws(LeastOf(keys), k);
  }

  /** A key that is there without blanks is its own first spelling. */
  lemma TrimmedKeyIsFirst(keys: set<string>, key: string)
    requires key in keys && Trimmed(key) && NoneIndented(keys)
    ensures key in Spellings(keys, key) && LeastOf(Spellings(keys, key)) == key
  {
    TrimSpaceTrims(key);
    forall k | k in Spellings(keys, key) ensures CompareBytes(key, k) <= 0 {
      assert TrimLeft(k) == k;
      assert key == k[..|key|];
      PrefixComesFirst(k, |key|);
    }
    LeastIsLeast(Spellings(keys, key), key);
  }

  lemma RereadKeysAreTrimmed<V>(m: map<string, V>)
    ensures AllTrimmed(Reread(m).Keys)
  {
    forall t | t in Reread(m) ensures Trimmed(t) {
      var k :| k in m && TrimSpace(k) == t;
      TrimSpaceTrims(k);
    }
  }

  lemma RereadAt<V>(m: map<string, V>, key: string)
    requires key in m && Trimmed(key) && NoneIndented(m.Keys)
    ensures key in Reread(m) && Reread(m)[key] == m[key]
  {
    TrimSpaceTrims(key);
    TrimmedKeyIsFirst(m.Keys, key);
    assert TrimSpace(key) in Trims(m.Keys);
  }

  lemma TrimsOfTrimmed(keys: set<string>)
    requires AllTrimmed(keys)
    ensures Trims(keys) == keys
  {
    forall k | k in keys ensures TrimSpace(k) == k { TrimSpaceTrims(k); }
    forall k | k in keys ensures k in Trims(keys) { assert TrimSpace(k) == k; }
  }

  lemma RereadKeys<V>(m: map<string, V>)
    ensures Reread(m).Keys == Trims(m.Keys)
  {
  }

  lemma SameMap<V>(m: map<string, V>, n: map<string, V>)
    requires m.Keys == n.Keys && forall k | k in n.Keys :: m[k] == n[k]
    ensures m == n
  {
  }

  lemma TrimmedComesBack<V>(m: map<string, V>)
    requires NoneIndented(m.Keys) && AllTrimmed(m.Keys)
    ensures Reread(m) == m
  {
    TrimsOfTrimmed(m.Keys);
    RereadKeys(m);
    forall k | k in m.Keys ensures k in Reread(m) && Reread(m)[k] == m[k] { RereadAt(m, k); }
    SameMap(Reread(m), m);
  }

  /** A map comes back as it is exactly when all its keys are trimmed. */
  lemma RereadExactly<V>(m: map<string, V>)
    requires NoneIndented(m.Keys)
    ensures Reread(m) == m <==> AllTrimmed(m.Keys)
  {
    if AllTrimmed(m.Keys) { TrimmedComesBack(m); } else { RereadKeysAreTrimmed(m); }
  }

  lemma OneSpelling(key: string)
    ensures Trims({key}) == {TrimSpace(key)} && FirstSpelling({key}, TrimSpace(key)) == key
  {
    assert TrimSpace(key) in Trims({key});
  }

  lemma RereadOne<V>(key: string, value: V)
    ensures Reread(map[key := value]) == map[TrimSpace(key) := value]
  {
    OneSpelling(key);
    assert map[key := value].Keys == {key};
  }

  // ---------------------------------------------------------------- texts as they are read again

  /** An entry as written, read again. */
  function Respell(line: TextLine): TextLine {
    match line.kind
    case Entry(key, _, value) =>
      if line == EntryText(key, value) then line.(kind := Entry(TrimSpace(key), TrimSpace(key), value)) else line
    case _ => line
  }

  function Respelled(text: seq<TextLine>): seq<TextLine> {
    seq(|text|, i requires 0 <= i < |text| => Respell(text[i]))
  }

  lemma RespelledJoins(a: seq<TextLine>, b: seq<TextLine>)
    ensures Respelled(a + b) == Respelled(a) + Respelled(b)
  {
  }

  /** A text of lines that are read as trimmed keys, as every file is. */
  predicate KeysRead(text: seq<TextLine>) {
    forall line | line in text && line.kind.Entry? :: Trimmed(line.kind.key)
  }

  function Reading(text: seq<TextLine>): Parsed {
    ParseFrom(NOTHING, Respelled(text))
  }

  lemma {:induction false} ParseConcat(p: Parsed, a: seq<TextLine>, b: seq<TextLine>)
    ensures ParseFrom(p, a + b) == ParseFrom(ParseFrom(p, a), b)
  {
    if b == [] {
      assert a + b == a;
    } else {
      ParseConcat(p, a, b[..|b| - 1]);
      assert (a + b)[..|a + b| - 1] == a + b[..|b| - 1];
    }
  }

  lemma {:induction false} ParseBlanks(p: Parsed, blanks: seq<TextLine>)
    requires forall i | 0 <= i < |blanks| :: blanks[i].kind == Blank
    ensures ParseFrom(p, blanks) == p
  {
    if blanks != [] { ParseBlanks(p, blanks[..|blanks| - 1]); }
  }

  lemma ParseOne(p: Parsed, a: seq<TextLine>, line: TextLine)
    ensures ParseFrom(p, a + [line]) == ParseLine(ParseFrom(p, a), line)
  {
  }

  lemma {:induction false} CurrentHasGroup(text: seq<TextLine>)
    ensures var p := ParseFrom(NOTHING, text); p.current.Some? ==> p.current.value in p.groups
  {
    if text != [] { CurrentHasGroup(text[..|text| - 1]); }
  }

  lemma OneMoreRead(text: seq<TextLine>, line: TextLine)
    ensures Reading(text + [line]) == ParseLine(Reading(text), Respell(line))
  {
    RespelledJoins(text, [line]);
    assert Respelled([line]) == [Respell(line)];
    ParseOne(NOTHING, Respelled(text), Respell(line));
  }

  lemma ReadWithBlanks(p: Parsed, text: seq<TextLine>, blanks: seq<TextLine>)
    requires forall i | 0 <= i < |blanks| :: blanks[i].kind == Blank
    ensures ParseFrom(p, Respelled(text + blanks)) == ParseFrom(p, Respelled(text))
  {
    RespelledJoins(text, blanks);
    ParseConcat(p, Respelled(text), Respelled(blanks));
    ParseBlanks(ParseFrom(p, Respelled(text)), Respelled(blanks));
  }

  // ---------------------------------------------------------------- reading the entries of one group

  /** A group with some keys' entries read after what it has: the first spelling counts. */
  function Filled(group: Entries, entries: Entries, keys: set<string>): Entries
    requires keys <= entries.Keys
  {
    group + map t | t in Trims(keys) && t !in group :: entries[FirstSpelling(keys, t)]
  }

  lemma LeastOfIsLeast(keys: set<string>)
    requires keys != {}
    ensures IsLeast(keys, LeastOf(keys))
  {
    var k := SomeLeast(keys);
    LeastIsLeast(keys, k);
  }

  /** Taking the first key away leaves the spellings of every other key alone. */
  lemma OtherSpellings(keys: set<string>, k: string, key: string)
    requires k in keys && key != TrimSpace(k)
    ensures key in Trims(keys) <==> key in Trims(keys - {k})
    ensures key in Trims(keys) ==> FirstSpelling(keys, key) == FirstSpelling(keys - {k}, key)
  {
    assert Spellings(keys, key) == Spellings(keys - {k}, key);
    if key in Trims(keys) {
      var j :| j in keys && TrimSpace(j) == key;
      assert j in keys - {k};
    }
  }

  lemma FirstOfAll(keys: set<string>)
    requires keys != {}
    ensures TrimSpace(LeastOf(keys)) in Trims(keys)
    ensures FirstSpelling(keys, TrimSpace(LeastOf(keys))) == LeastOf(keys)
  {
    var k := LeastOf(keys);
    LeastOfIsLeast(keys);
    assert k in Spellings(keys, TrimSpace(k));
    LeastIsLeast(Spellings(keys, TrimSpace(k)), k);
  }

  function AfterFirst(group: Entries, entries: Entries, k: string): Entries
    requires k in entries
  {
    if TrimSpace(k) in group then group else group[TrimSpace(k) := entries[k]]
  }

  /** What two groups say of a key. */
  predicate Agree(one: Entries, other: Entries, key: string) {
    if key in one then key in other && one[key] == other[key] else key !in other
  }

  lemma AgreeingGroups(one: Entries, other: Entries)
    requires forall key :: Agree(one, other, key)
    ensures one == other
  {
    assert forall key :: key in one <==> key in other by {
      forall key ensures key in one <==> key in other { assert Agree(one, other, key); }
    }
    forall key | key in one ensures one[key] == other[key] { assert Agree(one, other, key); }
  }

  lemma FilledAt(group: Entries, entries: Entries, keys: set<string>, u: string)
    requires keys <= entries.Keys && keys != {}
    ensures var k := LeastOf(keys);
            Agree(Filled(AfterFirst(group, entries, k), entries, keys - {k}), Filled(group, entries, keys), u)
  {
    var k := LeastOf(keys);
    FirstOfAll(keys);
    if u != TrimSpace(k) { OtherSpellings(keys, k, u); }
  }

  /** The first key is read first. */
  lemma FilledStep(group: Entries, entries: Entries, keys: set<string>)
    requires keys <= entries.Keys && keys != {}
    ensures Filled(AfterFirst(group, entries, LeastOf(keys)), entries, keys - {LeastOf(keys)})
         == Filled(group, entries, keys)
  {
    var one := Filled(AfterFirst(group, entries, LeastOf(keys)), entries, keys - {LeastOf(keys)});
    var all := Filled(group, entries, keys);
    forall u ensures Agree(one, all, u) { FilledAt(group, entries, keys, u); }
    AgreeingGroups(one, all);
  }

  function With(p: Parsed, group: string, entries: Entries): Parsed {
    p.(groups := p.groups[group := entries])
  }

  lemma WithTwice(p: Parsed, group: string, a: Entries, b: Entries)
    ensures With(With(p, group, a), group, b) == With(p, group, b)
  {
    assert p.groups[group := a][group := b] == p.groups[group := b];
  }

  lemma EntryRead(p: Parsed, group: string, entries: Entries, k: string)
    requires p.current == Some(group) && group in p.groups && k in entries
    ensures ParseFrom(p, Respelled([EntryText(k, entries[k])])) ==
            With(p, group, AfterFirst(p.groups[group], entries, k))
  {
    var line := Respell(EntryText(k, entries[k]));
    assert Respelled([EntryText(k, entries[k])]) == [] + [line];
    ParseOne(p, [], line);
    if TrimSpace(k) in p.groups[group] { assert p.groups[group := p.groups[group]] == p.groups; }
  }

  lemma OneAndTheRest(entries: Entries, k: string, rest: seq<string>)
    requires k in entries && forall j | j in rest :: j in entries
    ensures EntryTexts(entries, [k] + rest) == [EntryText(k, entries[k])] + EntryTexts(entries, rest)
  {
  }

  lemma FirstEntry(entries: Entries, keys: set<string>)
    requires keys <= entries.Keys && keys != {}
    ensures var k, rest := LeastOf(keys), keys - {LeastOf(keys)};
            && (forall j | j in SortedKeys(keys) :: j in entries) && (forall j | j in SortedKeys(rest) :: j in entries)
            && EntryTexts(entries, SortedKeys(keys))
            == [EntryText(k, entries[k])] + EntryTexts(entries, SortedKeys(rest))
  {
    var rest := SortedKeys(keys - {LeastOf(keys)});
    SortedKeysAreTheKeys(keys);
    SortedKeysAreTheKeys(keys - {LeastOf(keys)});
    assert SortedKeys(keys) == [LeastOf(keys)] + rest;
    OneAndTheRest(entries, LeastOf(keys), rest);
  }

  /** Sorted entries of the current group, read one after another. */
  lemma {:induction false} EntriesRead(p: Parsed, group: string, entries: Entries, keys: set<string>)
    requires p.current == Some(group) && group in p.groups && keys <= entries.Keys
    ensures forall k | k in SortedKeys(keys) :: k in entries
    ensures ParseFrom(p, Respelled(EntryTexts(entries, SortedKeys(keys))))
         == With(p, group, Filled(p.groups[group], entries, keys))
    decreases |keys|
  {
    SortedKeysAreTheKeys(keys);
    if keys == {} {
      assert Respelled(EntryTexts(entries, SortedKeys(keys))) == [];
      assert Filled(p.groups[group], entries, keys) == p.groups[group];
      assert p.groups[group := p.groups[group]] == p.groups;
    } else {
      var k := LeastOf(keys);
      var first, rest := [EntryText(k, entries[k])], keys - {k};
      FirstEntry(entries, keys);
      RespelledJoins(first, EntryTexts(entries, SortedKeys(rest)));
      ParseConcat(p, Respelled(first), Respelled(EntryTexts(entries, SortedKeys(rest))));
      EntryRead(p, group, entries, k);
      var q := With(p, group, AfterFirst(p.groups[group], entries, k));
      EntriesRead(q, group, entries, rest);
      FilledStep(p.groups[group], entries, keys);
      WithTwice(p, group, AfterFirst(p.groups[group], entries, k), Filled(p.groups[group], entries, keys));
    }
  }

  // ---------------------------------------------------------------- the invariant of the rendering loop

  function Restrict(entries: Entries, group: string, written: set<(string, string)>): Entries {
    map k | k in entries && (group, k) in written :: entries[k]
  }

  /** Either only keys without blanks around them are in the text so far, each as it is, or all the keys are
      and the group reads as the whole would. */
  ghost predicate GroupReads(entries: Entries, p: Parsed, group: string, written: set<(string, string)>) {
    || (&& GroupOf(p, group) == Restrict(entries, group, written)
        && AllTrimmed(Restrict(entries, group, written).Keys))
    || (&& GroupOf(p, group) == Reread(entries)
        && forall k | k in entries :: (group, k) in written)
  }

  /** The keys of the groups, as they come out of files and calls. */
  predicate Unindented(managed: Managed) {
    forall g | g in managed :: NoneIndented(managed[g].Keys)
  }

  ghost predicate ReadsAs(managed: Managed, r: Rendering) {
    var p := Reading(r.out);
    && (p.current == Some(r.current) || (p.current == None && r.current == ""))
    && forall g | g in managed :: GroupReads(managed[g], p, g, r.written)
  }

  lemma OtherGroupsRead(entries: Entries, p: Parsed, q: Parsed, group: string, other: string,
                        written: set<(string, string)>, keys: set<string>)
    requires GroupReads(entries, p, group, written) && group != other && GroupOf(q, group) == GroupOf(p, group)
    ensures GroupReads(entries, q, group, written + Marks(other, keys))
  {
    assert Restrict(entries, group, written + Marks(other, keys)) == Restrict(entries, group, written);
  }

  lemma FilledIsRereadAt(entries: Entries, have: Entries, missing: set<string>, t: string)
    requires NoneIndented(entries.Keys) && AllTrimmed(have.Keys)
    requires missing <= entries.Keys && have.Keys == entries.Keys - missing
    requires forall k | k in have :: have[k] == entries[k]
    ensures var all := Filled(have, entries, missing);
            (t in all <==> t in Reread(entries)) && (t in all ==> all[t] == Reread(entries)[t])
  {
    if t in have {
      RereadAt(entries, t);
    } else {
      forall k | k in have ensures TrimSpace(k) != t { TrimSpaceTrims(k); }
      assert Spellings(missing, t) == Spellings(entries.Keys, t);
      if t in Trims(entries.Keys) {
        var k :| k in entries.Keys && TrimSpace(k) == t;
        assert k in missing;
      }
    }
  }

  /** What is missing, read after keys that are trimmed, completes the group. */
  lemma FilledIsReread(entries: Entries, group: string, written: set<(string, string)>, missing: set<string>)
    requires NoneIndented(entries.Keys) && AllTrimmed(Restrict(entries, group, written).Keys)
    requires missing == set k | k in entries && (group, k) !in written
    ensures missing <= entries.Keys && Filled(Restrict(entries, group, written), entries, missing) == Reread(entries)
  {
    var have := Restrict(entries, group, written);
    var all := Filled(have, entries, missing);
    forall t ensures (t in all <==> t in Reread(entries)) && (t in all ==> all[t] == Reread(entries)[t]) {
      FilledIsRereadAt(entries, have, missing, t);
    }
  }

  /** The flush: all that is missing from the current group goes in, sorted. */
  lemma InsertedReads(managed: Managed, r: Rendering, body: seq<TextLine>, blanks: seq<TextLine>)
    requires "" !in managed && r.current in managed && NoneIndented(managed[r.current].Keys)
    requires ReadsAs(managed, r) && r.out == body + blanks && Missing(managed, r, r.current) != {}
    requires forall i | 0 <= i < |blanks| :: blanks[i].kind == Blank
    ensures var missing := Missing(managed, r, r.current);
            && (forall k | k in SortedKeys(missing) :: k in managed[r.current])
            && ReadsAs(managed, Rendering(body + EntryTexts(managed[r.current], SortedKeys(missing)) + blanks,
                                          r.current, r.written + Marks(r.current, missing)))
  {
    var g, missing := r.current, Missing(managed, r, r.current);
    MissingAreEntries(managed, r, g);
    var lines := EntryTexts(managed[g], SortedKeys(missing));
    var p := Reading(body);
    ReadWithBlanks(NOTHING, body, blanks);
    ReadWithBlanks(NOTHING, body + lines, blanks);
    RespelledJoins(body, lines);
    ParseConcat(NOTHING, Respelled(body), Respelled(lines));
    CurrentHasGroup(Respelled(body));
    assert GroupReads(managed[g], p, g, r.written);
    EntriesRead(p, g, managed[g], missing);
    FilledIsReread(managed[g], g, r.written, missing);
    var q := With(p, g, Reread(managed[g]));
    forall h | h in managed ensures GroupReads(managed[h], q, h, r.written + Marks(g, missing)) {
      assert GroupReads(managed[h], p, h, r.written);
      if h != g { OtherGroupsRead(managed[h], p, q, h, g, r.written, missing); }
    }
  }

  lemma FlushReads(managed: Managed, r: Rendering)
    requires "" !in managed && Unindented(managed) && ReadsAs(managed, r)
    ensures ReadsAs(managed, Flush(managed, r))
  {
    FlushFills(managed, r);
    if r.current in managed && Missing(managed, r, r.current) != {} {
      var at := BodyEnd(r.out);
      assert r.out == r.out[..at] + r.out[at..];
      InsertedReads(managed, r, r.out[..at], r.out[at..]);
    }
  }

  /** A line that is kept does not touch the groups that are managed. */
  lemma KeepReads(managed: Managed, r: Rendering, line: TextLine)
    requires ReadsAs(managed, r) && !line.kind.Header? && (line.kind.Entry? ==> r.current !in managed)
    ensures ReadsAs(managed, Keep(r, line))
  {
    OneMoreRead(r.out, line);
    var p, q := Reading(r.out), Reading(r.out + [line]);
    forall g | g in managed ensures GroupReads(managed[g], q, g, r.written) {
      assert GroupReads(managed[g], p, g, r.written);
      assert GroupOf(q, g) == GroupOf(p, g);
    }
  }

  lemma HeaderReads(managed: Managed, r: Rendering, line: TextLine)
    requires ReadsAs(managed, r) && line.kind.Header?
    ensures ReadsAs(managed, Keep(r, line).(current := line.kind.name))
  {
    OneMoreRead(r.out, line);
    var p, q := Reading(r.out), Reading(r.out + [line]);
    forall g | g in managed ensures GroupReads(managed[g], q, g, r.written) {
      assert GroupReads(managed[g], p, g, r.written);
      assert GroupOf(q, g) == GroupOf(p, g);
    }
  }

  /** An entry that is replaced in place has a key without blanks around it. */
  lemma ReplacedReads(managed: Managed, r: Rendering, key: string)
    requires "" !in managed && ReadsAs(managed, r) && r.current in managed && Trimmed(key)
    requires key in managed[r.current] && (r.current, key) !in r.written
    ensures ReadsAs(managed, Rendering(r.out + [EntryText(key, managed[r.current][key])], r.current,
                                       r.written + {(r.current, key)}))
  {
    var g, p := r.current, Reading(r.out);
    var line := EntryText(key, managed[g][key]);
    var q := Reading(r.out + [line]);
    OneMoreRead(r.out, line);
    CurrentHasGroup(Respelled(r.out));
    TrimSpaceTrims(key);
    assert GroupReads(managed[g], p, g, r.written);
    assert Restrict(managed[g], g, r.written + {(g, key)}) ==
           Restrict(managed[g], g, r.written)[key := managed[g][key]];
    assert Marks(g, {key}) == {(g, key)};
    forall h | h in managed ensures GroupReads(managed[h], q, h, r.written + {(g, key)}) {
      assert GroupReads(managed[h], p, h, r.written);
      if h != g { OtherGroupsRead(managed[h], p, q, h, g, r.written, {key}); }
    }
  }

  lemma LineReads(managed: Managed, r: Rendering, line: TextLine)
    requires "" !in managed && Unindented(managed) && ReadsAs(managed, r)
    requires line.kind.Entry? ==> Trimmed(line.kind.key)
    ensures ReadsAs(managed, RenderLine(managed, r, line))
  {
    if line.kind.Header? {
      FlushReads(managed, r);
      HeaderReads(managed, Flush(managed, r), line);
    } else if line.kind.Entry? && r.current in managed {
      if line.kind.key in managed[r.current] && (r.current, line.kind.key) !in r.written {
        ReplacedReads(managed, r, line.kind.key);
      }
    } else {
      KeepReads(managed, r, line);
    }
  }

  lemma NothingReads(managed: Managed)
    requires "" !in managed
    ensures ReadsAs(managed, START)
  {
    assert Respelled([]) == [];
    forall g | g in managed ensures GroupReads(managed[g], Reading([]), g, {}) {
      assert Restrict(managed[g], g, {}) == map[];
    }
  }

  lemma {:induction false} LinesRead(managed: Managed, text: seq<TextLine>)
    requires "" !in managed && Unindented(managed) && KeysRead(text)
    ensures ReadsAs(managed, RenderFrom(managed, START, text))
  {
    if text == [] {
      NothingReads(managed);
    } else {
      var before, last := text[..|text| - 1], text[|text| - 1];
      assert last in text && KeysRead(before);
      LinesRead(managed, before);
      LineReads(managed, RenderFrom(managed, START, before), last);
    }
  }

  lemma AppendReads(managed: Managed, r: Rendering, group: string)
    requires "" !in managed && Unindented(managed) && ReadsAs(managed, r)
    requires group in managed && Full(managed, r)
    ensures ReadsAs(managed, AppendGroup(managed, r, group)) && Full(managed, AppendGroup(managed, r, group))
  {
    if Missing(managed, r, group) != {} {
      var gap := GapAfter(r.out);
      AppendIsFlush(managed, r, group);
      var s := RenderFrom(managed, r, gap);
      if gap != [] {
        RenderOne(managed, r, [], GAP);
        assert [] + [GAP] == gap;
        LineReads(managed, r, GAP);
      }
      LineReads(managed, s, HeaderText(group));
      var t := RenderLine(managed, s, HeaderText(group));
      FlushReads(managed, t);
      FlushFills(managed, t);
    }
  }

  lemma SectionsRead(managed: Managed, r: Rendering)
    requires Three(managed) && Unindented(managed)
    requires ReadsAs(managed, r) && Full(managed, r)
    ensures ReadsAs(managed, AppendGroups(managed, r))
  {
    TheThree(managed);
    AppendReads(managed, r, DEFAULTS);
    var r2 := AppendGroup(managed, r, DEFAULTS);
    AppendReads(managed, r2, ADDED);
    AppendReads(managed, AppendGroup(managed, r2, ADDED), REMOVED);
  }

  lemma FinishedReads(managed: Managed, text: seq<TextLine>)
    requires Three(managed) && Unindented(managed) && KeysRead(text)
    ensures ReadsAs(managed, RenderText(managed, text))
  {
    TheThree(managed);
    var r := RenderFrom(managed, START, text);
    LinesRead(managed, text);
    FlushReads(managed, r);
    FlushFills(managed, r);
    SectionsRead(managed, Flush(managed, r));
  }

  lemma WholeGroupReads(managed: Managed, r: Rendering, g: string)
    requires g in managed && NoneIndented(managed[g].Keys) && ReadsAs(managed, r) && Missing(managed, r, g) == {}
    ensures GroupOf(Reading(r.out), g) == Reread(managed[g])
  {
    var p := Reading(r.out);
    assert GroupReads(managed[g], p, g, r.written);
    assert forall k | k in managed[g] :: k in Missing(managed, r, g) || (g, k) in r.written;
    assert Restrict(managed[g], g, r.written) == managed[g];
    if GroupOf(p, g) != Reread(managed[g]) { TrimmedComesBack(managed[g]); }
  }

  /** Whatever the text held before, each group of the rendered text, read again, holds its entries under
      trimmed keys. */
  lemma GroupsAreReread(managed: Managed, text: seq<TextLine>)
    requires Three(managed) && Unindented(managed) && KeysRead(text)
    ensures forall g | g in managed :: GroupOf(Reading(RenderText(managed, text).out), g) == Reread(managed[g])
  {
    FinishedReads(managed, text);
    FinishedKeeps(managed, text);
    var r := RenderText(managed, text);
    forall g | g in managed ensures GroupOf(Reading(r.out), g) == Reread(managed[g]) {
      WholeGroupReads(managed, r, g);
    }
  }
}
