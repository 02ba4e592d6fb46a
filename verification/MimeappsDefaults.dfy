/** Setting default applications in a mimeapps.list (desktop/mimeapps.go), and what the file says then. */
module MimeappsDefaults {
  import opened Wrappers
  import opened Text
  import opened MimeappsLists
  import opened Mimeapps
  import opened MimeappsRendering
  import opened MimeappsSpelling
  import opened MimeappsRoundTrip

  function Without(list: seq<string>, id: string): seq<string> {
    if list == [] then []
    else Without(list[..|list| - 1], id) + if list[|list| - 1] == id then [] else [list[|list| - 1]]
  }

  function ListAt(lists: map<string, seq<string>>, key: string): seq<string> {
    if key in lists then lists[key] else []
  }

  /** One type's default set: the application is added to the type's list and struck from what is removed. */
  function WithDefault(a: Associations, mime: string, id: string): Associations {
    if mime == "" then a
    else
      var existing := ListAt(a.added, mime);
      var filtered := Without(ListAt(a.removed, mime), id);
      Associations(
        a.defaults[mime := id],
        if id in existing then a.added else a.added[mime := existing + [id]],
        if mime !in a.removed then a.removed
        else if filtered == [] then map k | k in a.removed && k != mime :: a.removed[k]
        else a.removed[mime := filtered])
  }

  function WithDefaults(a: Associations, mimes: seq<string>, id: string): Associations {
    if mimes == [] then a else WithDefault(WithDefaults(a, mimes[..|mimes| - 1], id), mimes[|mimes| - 1], id)
  }

  function DesktopId(id: string): string {
    if |id| >= 8 && id[|id| - 8..] == ".desktop" then id else id + ".desktop"
  }

  /** The id of a desktop file ends in ".desktop", and is completed only when it does not. */
  lemma DesktopIdEnds(id: string)
    ensures var full := DesktopId(id);
            && |full| >= 8 && full[|full| - 8..] == ".desktop"
            && (full == id || (full == id + ".desktop" && !(|id| >= 8 && id[|id| - 8..] == ".desktop")))
  {
  }

  lemma {:induction false} WithoutIs(list: seq<string>, id: string)
    ensures forall x :: x in Without(list, id) <==> x in list && x != id
  {
    if list != [] {
      WithoutIs(list[..|list| - 1], id);
      assert list == list[..|list| - 1] + [list[|list| - 1]];
    }
  }

  /** The list without every occurrence of the application: what is left stands at increasing places of the old
      list, and nothing else was at any other place. */
  ghost predicate StruckAt(was: seq<string>, left: seq<string>, id: string, places: seq<int>) {
    && |places| == |left|
    && (forall k | 0 <= k < |places| :: 0 <= places[k] < |was| && left[k] == was[places[k]] && left[k] != id)
    && (forall j, k | 0 <= j < k < |places| :: places[j] < places[k])
    && (forall i | 0 <= i < |was| && i !in places :: was[i] == id)
  }

  ghost predicate Struck(was: seq<string>, left: seq<string>, id: string) {
    exists places :: StruckAt(was, left, id, places)
  }

  lemma StruckMore(was: seq<string>, left: seq<string>, id: string, places: seq<int>, last: string)
    requires StruckAt(was, left, id, places)
    ensures last == id ==> StruckAt(was + [last], left, id, places)
    ensures last != id ==> StruckAt(was + [last], left + [last], id, places + [|was|])
  {
    var more := places + [|was|];
    assert more[|places|] == |was|;
    forall i | 0 <= i < |was + [last]| && i !in more ensures (was + [last])[i] == id {
      assert i !in places;
    }
  }

  lemma {:induction false} WithoutIsStruck(list: seq<string>, id: string) returns (places: seq<int>)
    ensures StruckAt(list, Without(list, id), id, places)
  {
    places := [];
    if list != [] {
      var front, last := list[..|list| - 1], list[|list| - 1];
      places := WithoutIsStruck(front, id);
      StruckMore(front, Without(front, id), id, places, last);
      assert list == front + [last];
      assert Without(list, id) == if last == id then Without(front, id) else Without(front, id) + [last];
      if last != id { places := places + [|front|]; }
    }
  }

  /** What was removed stays removed, but for the application, and an empty list goes. */
  ghost predicate StruckFrom(before: map<string, seq<string>>, after: map<string, seq<string>>, mime: string,
                             id: string)
  {
    && Struck(ListAt(before, mime), ListAt(after, mime), id)
    && (mime in after ==> after[mime] != [])
  }

  /** What was added stays, with the application last unless it was there. */
  predicate AppendedTo(before: map<string, seq<string>>, after: map<string, seq<string>>, mime: string, id: string) {
    && mime in after
    && after[mime] == if id in ListAt(before, mime) then ListAt(before, mime) else ListAt(before, mime) + [id]
  }

  /** What setting an application as the default does to one type. */
  ghost predicate IsSet(before: Associations, after: Associations, mime: string, id: string) {
    && mime in after.defaults && after.defaults[mime] == id
    && AppendedTo(before.added, after.added, mime, id)
    && StruckFrom(before.removed, after.removed, mime, id)
  }

  predicate SameAt<V(==)>(m: map<string, V>, n: map<string, V>, key: string) {
    if key in m then key in n && n[key] == m[key] else key !in n
  }

  /** Both say the same of a type. */
  predicate SameFor(a: Associations, b: Associations, mime: string) {
    SameAt(a.defaults, b.defaults, mime) && SameAt(a.added, b.added, mime) && SameAt(a.removed, b.removed, mime)
  }

  lemma {:induction false} WithoutTwice(list: seq<string>, id: string)
    ensures Without(Without(list, id), id) == Without(list, id)
    ensures id !in Without(list, id)
  {
    if list != [] {
      var front, last := list[..|list| - 1], list[|list| - 1];
      WithoutTwice(front, id);
      var rest := Without(front, id);
      if last != id {
        assert Without(list, id) == rest + [last];
        assert (rest + [last])[..|rest|] == rest;
      } else {
        assert Without(list, id) == rest;
      }
    }
  }

  /** The lists of a type after setting a default, however often it is asked for. */
  predicate Sets(a: Associations, b: Associations, mime: string, id: string) {
    && mime in b.defaults && b.defaults[mime] == id
    && AppendedTo(a.added, b.added, mime, id)
    && ListAt(b.removed, mime) == Without(ListAt(a.removed, mime), id)
    && (mime in b.removed ==> b.removed[mime] != [])
  }

  lemma WithDefaultSets(a: Associations, mime: string, id: string)
    ensures mime != "" ==> Sets(a, WithDefault(a, mime, id), mime, id)
    ensures forall other | other != mime || other == "" :: SameFor(a, WithDefault(a, mime, id), other)
  {
  }

  lemma SetsAgain(a: Associations, b: Associations, c: Associations, mime: string, id: string)
    requires Sets(a, b, mime, id) && Sets(b, c, mime, id)
    ensures Sets(a, c, mime, id)
  {
    WithoutTwice(ListAt(a.removed, mime), id);
    if id !in ListAt(a.added, mime) { assert (ListAt(a.added, mime) + [id])[|ListAt(a.added, mime)|] == id; }
  }

  lemma {:induction false} DefaultsSet(a: Associations, mimes: seq<string>, id: string, mime: string)
    ensures mime in mimes && mime != "" ==> Sets(a, WithDefaults(a, mimes, id), mime, id)
    ensures mime !in mimes || mime == "" ==> SameFor(a, WithDefaults(a, mimes, id), mime)
  {
    if mimes != [] {
      var front, last := mimes[..|mimes| - 1], mimes[|mimes| - 1];
      assert mimes == front + [last];
      var b := WithDefaults(a, front, id);
      var c := WithDefault(b, last, id);
      DefaultsSet(a, front, id, mime);
      WithDefaultSets(b, last, id);
      if mime == last && mime != "" && mime in front { SetsAgain(a, b, c, mime, id); }
      if mime != last { assert SameFor(b, c, mime); }
    }
  }

  lemma SetsIsSet(a: Associations, b: Associations, mime: string, id: string)
    requires Sets(a, b, mime, id)
    ensures IsSet(a, b, mime, id)
  {
    var places := WithoutIsStruck(ListAt(a.removed, mime), id);
  }

  /** After the update the application is the default of every type asked for, appended to what was added unless
      it was there, and struck from what was removed; no other type changes. */
  lemma DefaultsAreSet(a: Associations, mimes: seq<string>, id: string)
    ensures forall mime | mime in mimes && mime != "" :: IsSet(a, WithDefaults(a, mimes, id), mime, id)
    ensures forall mime | mime !in mimes || mime == "" :: SameFor(a, WithDefaults(a, mimes, id), mime)
  {
    forall mime | mime in mimes && mime != "" ensures IsSet(a, WithDefaults(a, mimes, id), mime, id) {
      DefaultsSet(a, mimes, id, mime);
      SetsIsSet(a, WithDefaults(a, mimes, id), mime, id);
    }
    forall mime | mime !in mimes || mime == "" ensures SameFor(a, WithDefaults(a, mimes, id), mime) {
      DefaultsSet(a, mimes, id, mime);
    }
  }

  // ---------------------------------------------------------------- what a file holds

  predicate ReadableLists(lists: map<string, seq<string>>) {
    forall k | k in lists :: ReadKey(k) && forall x | x in lists[k] :: Item(x)
  }

  predicate ReadableDefaults(defaults: map<string, string>) {
    forall k | k in defaults :: ReadKey(k) && Item(defaults[k])
  }

  /** Legible but for characters the renderer refuses. */
  predicate Readable(a: Associations) {
    ReadableDefaults(a.defaults) && ReadableLists(a.added) && ReadableLists(a.removed)
  }

  lemma ReadKeysAreClear(raw: string)
    ensures Classify(raw).Entry? ==> ReadKey(Classify(raw).bare)
  {
    var line := TrimSpace(raw);
    TrimSpaceTrims(raw);
    if Classify(raw).Entry? {
      var eq := IndexOfChar(line, '=');
      assert TrimLeft(line[..eq]) == line[..eq];
      ShownRight(line[..eq], line[0]);
      var key := TrimSpace(line[..eq]);
      assert key == line[..|key|];
      var bare := CutLocale(key);
      assert bare == line[..|bare|];
    }
  }

  predicate ClearKeys(group: map<string, string>) {
    forall k | k in group :: ReadKey(k)
  }

  predicate ClearGroups(p: Parsed) {
    forall g | g in p.groups :: ClearKeys(p.groups[g])
  }

  lemma ParsedLineIsClear(p: Parsed, line: TextLine)
    requires ClearGroups(p) && (line.kind.Entry? ==> ReadKey(line.kind.bare))
    ensures ClearGroups(ParseLine(p, line))
  {
  }

  lemma OneMoreParsed(lines: seq<string>, last: string)
    ensures ParseGroups(lines + [last]) == ParseLine(ParseGroups(lines), ReadLine(last))
  {
    assert ReadLines(lines + [last]) == ReadLines(lines) + [ReadLine(last)];
    ParseOne(NOTHING, ReadLines(lines), ReadLine(last));
  }

  lemma {:induction false} ParsedKeysAreClear(lines: seq<string>)
    ensures ClearGroups(ParseGroups(lines))
  {
    if lines != [] {
      var before, last := lines[..|lines| - 1], lines[|lines| - 1];
      ParsedKeysAreClear(before);
      OneMoreParsed(before, last);
      assert lines == before + [last];
      ReadKeysAreClear(last);
      ParsedLineIsClear(ParseGroups(before), ReadLine(last));
    }
  }

  lemma ParsedListsAreReadable(group: map<string, string>)
    requires ClearKeys(group)
    ensures ReadableLists(ListsOf(group)) && ReadableDefaults(FirstsOf(group))
  {
    forall k | k in group ensures forall x | x in ListOf(group[k]) :: Item(x) { ListsAreItems(group[k]); }
  }

  /** Everything read from a file is readable. */
  lemma FilesAreReadable(lines: seq<string>)
    ensures Readable(AssociationsFrom(lines))
  {
    ParsedKeysAreClear(lines);
    var p := ParseGroups(lines);
    assert forall g :: ClearKeys(GroupOf(p, g));
    ParsedListsAreReadable(GroupOf(p, DEFAULTS));
    ParsedListsAreReadable(GroupOf(p, ADDED));
    ParsedListsAreReadable(GroupOf(p, REMOVED));
  }

  lemma {:induction false} ItemsOfSafeJoin(list: seq<string>)
    requires IsSafeIniField(Join(list, ";"))
    ensures forall x | x in list :: IsSafeIniField(x)
  {
    if |list| > 1 {
      var before := list[..|list| - 1];
      assert list == before + [list[|list| - 1]];
      assert forall c | c in Join(before, ";") :: c in Join(list, ";");
      assert forall c | c in list[|list| - 1] :: c in Join(list, ";");
      ItemsOfSafeJoin(before);
    }
  }

  lemma SafeListsAreLegible(lists: map<string, seq<string>>)
    requires ReadableLists(lists) && AllSafe(FlattenAll(lists))
    ensures LegibleLists(lists)
  {
    forall k | k in lists ensures IsSafeIniField(k) && forall x | x in lists[k] :: IsSafeIniField(x) {
      assert k in FlattenAll(lists);
      assert IsSafeIniField(Flatten(lists[k]));
      assert forall c | c in Join(lists[k], ";") :: c in Flatten(lists[k]);
      ItemsOfSafeJoin(lists[k]);
    }
  }

  /** What the renderer does not refuse can be read back. */
  lemma ReadableIsLegible(a: Associations)
    requires Readable(a) && ManagedGroups(a).Some?
    ensures Legible(a) && ManagedGroups(a).value == EntriesOf(a)
  {
    SafeListsAreLegible(a.added);
    SafeListsAreLegible(a.removed);
  }

  /** Reading a file, writing it and reading it again gives the same exactly when no key of the three groups has
      a blank before its locale. */
  lemma RewritingExactly(lines: seq<string>)
    requires ManagedGroups(AssociationsFrom(lines)).Some?
    ensures var a := AssociationsFrom(lines);
            AssociationsFrom(Render(EntriesOf(a), lines)) == a <==> KeysTrimmed(a)
  {
    FilesAreReadable(lines);
    ReadableIsLegible(AssociationsFrom(lines));
    ReadBackExactly(AssociationsFrom(lines), lines);
  }

  // ---------------------------------------------------------------- a file that does not come back

  /** One entry with a blank between its key and its locale. */
  function BlankBeforeLocale(group: string, key: string, locale: string, app: string): seq<string> {
    ["[" + group + "]", key + " [" + locale + "]=" + app + ";"]
  }

  lemma LocaleIsCut(key: string, locale: string)
    requires '[' !in key
    ensures CutLocale(key + " [" + locale + "]") == key + " "
  {
    FirstSuchChar(key + " [" + locale + "]", '[', |key| + 1);
    assert (key + " [" + locale + "]")[..|key| + 1] == key + " ";
  }

  lemma LocaleLineSplits(key: string, locale: string, app: string)
    requires GoodKey(key) && '=' !in locale
    ensures var line := key + " [" + locale + "]=" + app + ";";
            var eq := |key| + 3 + |locale|;
            && IndexOfChar(line, '=') == eq && line[..eq] == key + " [" + locale + "]" && line[eq + 1..] == app + ";"
  {
    FirstSuchChar(key + " [" + locale + "]=" + app + ";", '=', |key| + 3 + |locale|);
  }

  lemma EntryLineIsRead(line: string, eq: nat, written: string, value: string)
    requires line != "" && Trimmed(line) && line[0] != '#' && line[0] != '['
    requires IndexOfChar(line, '=') == eq && 0 < eq < |line|
    requires line[..eq] == written && Trimmed(written) && line[eq + 1..] == value && Trimmed(value)
    ensures Classify(line) == Entry(written, CutLocale(written), value)
  {
    TrimSpaceTrims(line);
    TrimSpaceTrims(written);
    TrimSpaceTrims(value);
  }

  lemma LocaleFieldsAreTrimmed(key: string, locale: string, app: string)
    requires GoodKey(key) && Item(app)
    ensures Trimmed(key + " [" + locale + "]") && Trimmed(app + ";")
    ensures Trimmed(key + " [" + locale + "]=" + app + ";")
  {
    assert (key + " [" + locale + "]")[0] == key[0];
    assert (key + " [" + locale + "]=" + app + ";")[0] == key[0];
    assert (app + ";")[0] == app[0];
  }

  lemma LocaleLineBegins(key: string, rest: string)
    requires GoodKey(key)
    ensures key + rest != "" && (key + rest)[0] != '#' && (key + rest)[0] != '['
  {
    assert (key + rest)[0] == key[0] && key[0] in key;
  }

  lemma LocaleLineIsRead(key: string, locale: string, app: string)
    requires GoodKey(key) && '=' !in locale && Item(app)
    ensures Classify(key + " [" + locale + "]=" + app + ";")
         == Entry(key + " [" + locale + "]", key + " ", app + ";")
  {
    var line := key + " [" + locale + "]=" + app + ";";
    LocaleFieldsAreTrimmed(key, locale, app);
    LocaleLineSplits(key, locale, app);
    LocaleLineBegins(key, " [" + locale + "]=" + app + ";");
    assert line == key + (" [" + locale + "]=" + app + ";");
    EntryLineIsRead(line, |key| + 3 + |locale|, key + " [" + locale + "]", app + ";");
    LocaleIsCut(key, locale);
  }

  lemma BlankIsTrimmed(key: string)
    requires GoodKey(key)
    ensures TrimSpace(key + " ") == key
  {
    assert TrimLeft(key + " ") == key + " ";
    assert (key + " ")[..|key|] == key;
    assert TrimRight(key) == key;
  }

  lemma OneItem(app: string)
    requires Item(app)
    ensures Flatten([app]) == app + ";" && ListOf(app + ";") == [app]
  {
    assert Flatten([app]) == app + ";";
    ListOfFlatten([app]);
  }

  lemma TwoLinesParsed(header: TextLine, entry: TextLine, group: string, written: string, key: string, value: string)
    requires header.kind == Header(group) && entry.kind == Entry(written, key, value)
    ensures ParseFrom(NOTHING, [header, entry]) == Parsed(map[group := map[key := value]], Some(group))
  {
    assert [header, entry] == [] + [header] + [entry];
    ParseOne(NOTHING, [], header);
    ParseOne(NOTHING, [] + [header], entry);
  }

  lemma GroupsDiffer()
    ensures DEFAULTS != ADDED && DEFAULTS != REMOVED && ADDED != REMOVED
  {
    assert DEFAULTS[0] == 'D' && ADDED[0] == 'A' && REMOVED[0] == 'R';
  }

  lemma OnlyGroup(p: Parsed, group: string, entries: map<string, string>)
    requires p.groups == map[group := entries]
    ensures GroupOf(p, group) == entries
    ensures forall other | other != group :: GroupOf(p, other) == map[]
  {
  }

  lemma OneAdded(lines: seq<string>, key: string, value: string, app: string)
    requires ParseGroups(lines).groups == map[ADDED := map[key := value]] && ListOf(value) == [app]
    ensures AssociationsFrom(lines) == Associations(map[], map[key := [app]], map[])
  {
    GroupsDiffer();
    OnlyGroup(ParseGroups(lines), ADDED, map[key := value]);
  }

  lemma OneRemoved(lines: seq<string>, key: string, value: string, app: string)
    requires ParseGroups(lines).groups == map[REMOVED := map[key := value]] && ListOf(value) == [app]
    ensures AssociationsFrom(lines) == Associations(map[], map[], map[key := [app]])
  {
    GroupsDiffer();
    OnlyGroup(ParseGroups(lines), REMOVED, map[key := value]);
  }

  lemma OneLineParsed(group: string, line: string, written: string, key: string, value: string)
    requires Classify(line) == Entry(written, key, value)
    ensures ParseGroups(["[" + group + "]", line]).groups == map[group := map[key := value]]
  {
    HeaderIsRead(group);
    assert ReadLines(["[" + group + "]", line]) == [HeaderText(group), ReadLine(line)];
    TwoLinesParsed(HeaderText(group), ReadLine(line), group, written, key, value);
  }

  lemma BlankIsParsed(group: string, key: string, locale: string, app: string)
    requires GoodKey(key) && '=' !in locale && Item(app)
    ensures ParseGroups(BlankBeforeLocale(group, key, locale, app)).groups == map[group := map[key + " " := app + ";"]]
    ensures ListOf(app + ";") == [app]
  {
    LocaleLineIsRead(key, locale, app);
    OneItem(app);
    OneLineParsed(group, key + " [" + locale + "]=" + app + ";", key + " [" + locale + "]", key + " ", app + ";");
  }

  lemma BlankIsLegible(key: string, app: string)
    requires GoodKey(key) && Item(app) && IsSafeIniField(app)
    ensures Legible(Associations(map[], map[key + " " := [app]], map[]))
  {
    assert (key + " ")[0] == key[0];
  }

  lemma BlankIsRereadAs(key: string, app: string)
    requires GoodKey(key)
    ensures Reread(map[key + " " := [app]]) == map[key := [app]]
  {
    BlankIsTrimmed(key);
    RereadOne(key + " ", [app]);
  }

  /** A blank before a locale is read as part of the key and does not survive being written: the type the file
      had is gone, and another one is there instead. */
  lemma BlankBeforeLocaleIsLost(key: string, locale: string, app: string)
    requires GoodKey(key) && '=' !in locale && Item(app) && IsSafeIniField(app)
    ensures var lines := BlankBeforeLocale(ADDED, key, locale, app);
            var a := AssociationsFrom(lines);
            && ManagedGroups(a).Some?
            && a.added == map[key + " " := [app]]
            && AssociationsFrom(Render(EntriesOf(a), lines)).added == map[key := [app]]
  {
    var lines, a := BlankBeforeLocale(ADDED, key, locale, app), Associations(map[], map[key + " " := [app]], map[]);
    BlankIsParsed(ADDED, key, locale, app);
    OneAdded(lines, key + " ", app + ";", app);
    BlankIsLegible(key, app);
    WhatIsReadBack(a, lines);
    BlankIsRereadAs(key, app);
  }

  lemma TextXIsGood()
    ensures GoodKey("text/x") && Item("a.desktop") && IsSafeIniField("a.desktop") && '=' !in "de"
  {
  }

  /** For one file. */
  lemma TextXIsLost()
    ensures var lines := ["[Added Associations]", "text/x [de]=a.desktop;"];
            var a := AssociationsFrom(lines);
            && a.added == map["text/x " := ["a.desktop"]]
            && AssociationsFrom(Render(EntriesOf(a), lines)).added == map["text/x" := ["a.desktop"]]
  {
    assert "[" + ADDED + "]" == "[Added Associations]";
    assert "text/x" + " [" + "de" + "]=" + "a.desktop" + ";" == "text/x [de]=a.desktop;";
    assert "text/x" + " " == "text/x ";
    TextXIsGood();
    BlankBeforeLocaleIsLost("text/x", "de", "a.desktop");
  }

  // ---------------------------------------------------------------- a file after setting defaults

  predicate WritableType(mime: string) {
    mime == "" || (ReadKey(mime) && Trimmed(mime))
  }

  lemma {:induction false} TrimLeftKeepsOut(s: string, c: char)
    requires c !in s
    ensures c !in TrimLeft(s)
  {
    if s != "" && IsSpace(s[0]) { TrimLeftKeepsOut(s[1..], c); }
  }

  lemma TrimSpaceKeepsOut(s: string, c: char)
    requires c !in s
    ensures c !in TrimSpace(s)
  {
    TrimLeftKeepsOut(s, c);
  }

  /** The condition on a type is exact: the line that makes an application the default of a type is read back as
      that if and only if the type has no blanks around it, no equals sign and no leading comment sign. With a
      comment sign it is read as a comment, else as an entry under another key. */
  lemma DefaultLineReadsBackExactly(mime: string, id: string)
    requires mime != "" && IsSafeIniField(mime) && Item(id)
    ensures Classify(mime + "=" + id) == Entry(mime, mime, id) <==> WritableType(mime)
    ensures mime[0] == '#' ==> Classify(mime + "=" + id) == Comment
  {
    var line := mime + "=" + id;
    if ReadKey(mime) {
      EntrySpeaks(mime, id);
      TrimSpaceTrims(mime);
    }
    if Classify(line) == Entry(mime, mime, id) {
      var eq := IndexOfChar(TrimSpace(line), '=');
      TrimSpaceTrims(TrimSpace(line)[..eq]);
      TrimSpaceKeepsOut(TrimSpace(line)[..eq], '=');
    }
    if mime[0] == '#' {
      assert line[0] == '#' && TrimLeft(line) == line;
      assert line[|line| - 1] == id[|id| - 1];
      TrimSpaceTrims(line);
    }
  }

  lemma WithDefaultIsReadable(a: Associations, mime: string, id: string)
    requires Readable(a) && WritableType(mime) && Item(id)
    ensures Readable(WithDefault(a, mime, id))
  {
    WithoutIs(ListAt(a.removed, mime), id);
    var b := WithDefault(a, mime, id);
    if mime != "" {
      forall k | k in b.added ensures ReadKey(k) && forall x | x in b.added[k] :: Item(x) {
        if k in a.added { assert forall x | x in a.added[k] :: Item(x); }
      }
      forall k | k in b.removed ensures ReadKey(k) && forall x | x in b.removed[k] :: Item(x) {
        assert forall x | x in a.removed[k] :: Item(x);
      }
    }
  }

  lemma {:induction false} WithDefaultsIsReadable(a: Associations, mimes: seq<string>, id: string)
    requires Readable(a) && (forall m | m in mimes :: WritableType(m)) && Item(id)
    ensures Readable(WithDefaults(a, mimes, id))
  {
    if mimes != [] {
      var before, last := mimes[..|mimes| - 1], mimes[|mimes| - 1];
      assert mimes == before + [last];
      WithDefaultsIsReadable(a, before, id);
      WithDefaultIsReadable(WithDefaults(a, before, id), last, id);
    }
  }

  /** Writing and reading keeps what a map says of a key: a key that is there is trimmed, and one that is not
      there has no other spelling. */
  predicate Undisturbed<V>(m: map<string, V>, key: string) {
    if key in m then Trimmed(key) else key !in Trims(m.Keys)
  }

  lemma UndisturbedExactly<V>(m: map<string, V>, key: string)
    requires NoneIndented(m.Keys)
    ensures Undisturbed(m, key) <==>
            (key in m <==> key in Reread(m)) && (key in m ==> key in Reread(m) && Reread(m)[key] == m[key])
  {
    RereadKeysAreTrimmed(m);
    if key in m && Trimmed(key) { RereadAt(m, key); }
  }

  /** What one map says of a type, as far as it can be told apart after writing. */
  lemma OthersAreAsBefore<V, W>(m: map<string, V>, n: map<string, W>, mimes: seq<string>, key: string)
    requires forall k | k !in mimes || k == "" :: k in m <==> k in n
    requires (forall k | k in mimes :: WritableType(k)) && (key !in mimes || key == "")
    ensures Undisturbed(m, key) <==> Undisturbed(n, key)
  {
    forall k | TrimSpace(k) == key ensures k in m <==> k in n {
      if k in mimes && k != "" { TrimSpaceTrims(k); }
    }
    if key in Trims(m.Keys) {
      var k :| k in m.Keys && TrimSpace(k) == key;
      assert k in n.Keys;
    }
    if key in Trims(n.Keys) {
      var k :| k in n.Keys && TrimSpace(k) == key;
      assert k in m.Keys;
    }
  }

  /** The three groups of a file keep what they say of a type. */
  predicate AllUndisturbed(a: Associations, mime: string) {
    Undisturbed(a.defaults, mime) && Undisturbed(a.added, mime) && Undisturbed(a.removed, mime)
  }

  /** Under its own name the type has nothing removed, but another spelling of it has the application removed. */
  predicate RemovedElsewhere(lists: map<string, seq<string>>, mime: string, id: string) {
    mime !in lists && mime in Trims(lists.Keys) && id in lists[FirstSpelling(lists.Keys, mime)]
  }

  lemma UntouchedIn<V>(m: map<string, V>, n: map<string, V>, mimes: seq<string>, key: string)
    requires (forall k | k !in mimes || k == "" :: SameAt(m, n, k)) && (key !in mimes || key == "")
    requires (forall k | k in mimes :: WritableType(k)) && NoneIndented(n.Keys)
    ensures SameAt(m, Reread(n), key) <==> Undisturbed(m, key)
  {
    assert SameAt(m, n, key);
    UndisturbedExactly(n, key);
    OthersAreAsBefore(m, n, mimes, key);
  }

  lemma UntouchedType(before: Associations, a: Associations, mimes: seq<string>, mime: string)
    requires Legible(a) && (forall m | m in mimes :: WritableType(m)) && (mime !in mimes || mime == "")
    requires forall m | m !in mimes || m == "" :: SameFor(before, a, m)
    ensures SameFor(before, RereadAll(a), mime) <==> AllUndisturbed(before, mime)
  {
    LegibleIsUnindented(a);
    UntouchedIn(before.defaults, a.defaults, mimes, mime);
    UntouchedIn(before.added, a.added, mimes, mime);
    UntouchedIn(before.removed, a.removed, mimes, mime);
  }

  /** A type asked for, in the file that is read back. What was removed besides the application is still removed, in
      order. When nothing is left the type's list is gone, unless another spelling of the type has one. */
  ghost predicate AskedFor(before: Associations, a: Associations, after: Associations, mime: string, id: string) {
    && mime in after.defaults && after.defaults[mime] == id
    && AppendedTo(before.added, after.added, mime, id)
    && (if exists x :: x in ListAt(before.removed, mime) && x != id
        then mime in after.removed && Struck(ListAt(before.removed, mime), after.removed[mime], id)
        else (mime in after.removed <==> mime in Trims(a.removed.Keys)))
    && (id in ListAt(after.removed, mime) <==> RemovedElsewhere(a.removed, mime, id))
  }

  lemma StruckPlace(was: seq<string>, left: seq<string>, id: string, places: seq<int>, k: nat)
    requires StruckAt(was, left, id, places) && k < |left|
    ensures left[k] in was && left[k] != id
  {
    assert was[places[k]] == left[k];
  }

  lemma StruckAway(was: seq<string>, left: seq<string>, id: string)
    requires Struck(was, left, id)
    ensures id !in left
    ensures left != [] ==> exists x :: x in was && x != id
  {
    var places :| StruckAt(was, left, id, places);
    forall x | x in left ensures x in was && x != id {
      var k :| 0 <= k < |left| && left[k] == x;
      StruckPlace(was, left, id, places, k);
    }
    if left != [] { assert left[0] in left; }
  }

  lemma StruckKeeps(was: seq<string>, left: seq<string>, id: string, x: string)
    requires Struck(was, left, id) && x in was && x != id
    ensures left != []
  {
    var places :| StruckAt(was, left, id, places);
    var i :| 0 <= i < |was| && was[i] == x;
    assert i in places;
  }

  lemma SetIsRead(before: Associations, a: Associations, mime: string, id: string)
    requires Legible(a) && Trimmed(mime) && IsSet(before, a, mime, id)
    ensures var after := RereadAll(a);
            mime in after.defaults && after.defaults[mime] == id && AppendedTo(before.added, after.added, mime, id)
  {
    LegibleIsUnindented(a);
    RereadAt(a.defaults, mime);
    RereadAt(a.added, mime);
  }

  lemma TouchedType(before: Associations, a: Associations, mime: string, id: string)
    requires Legible(a) && Trimmed(mime) && IsSet(before, a, mime, id)
    ensures AskedFor(before, a, RereadAll(a), mime, id)
  {
    SetIsRead(before, a, mime, id);
    LegibleIsUnindented(a);
    StruckAway(ListAt(before.removed, mime), ListAt(a.removed, mime), id);
    if x :| x in ListAt(before.removed, mime) && x != id {
      StruckKeeps(ListAt(before.removed, mime), ListAt(a.removed, mime), id, x);
    }
    if mime in a.removed { RereadAt(a.removed, mime); }
    RereadKeysAreTrimmed(a.removed);
  }

  /** After setting defaults and reading back. Every other type is as it was exactly when all three groups keep
      what they say of it. */
  ghost predicate TypesAfter(before: Associations, a: Associations, after: Associations, mimes: seq<string>,
                             id: string)
  {
    && (forall m | m in mimes && m != "" :: AskedFor(before, a, after, m, id))
    && (forall m | m !in mimes || m == "" :: SameFor(before, after, m) <==> AllUndisturbed(before, m))
  }

  lemma TypesReadBack(before: Associations, a: Associations, mimes: seq<string>, id: string)
    requires Legible(a) && a == WithDefaults(before, mimes, id) && forall m | m in mimes :: WritableType(m)
    ensures TypesAfter(before, a, RereadAll(a), mimes, id)
  {
    DefaultsAreSet(before, mimes, id);
    var after := RereadAll(a);
    forall m | m in mimes && m != "" ensures AskedFor(before, a, after, m, id) {
      assert WritableType(m);
      TouchedType(before, a, m, id);
    }
    forall m | m !in mimes || m == "" ensures SameFor(before, after, m) <==> AllUndisturbed(before, m) {
      UntouchedType(before, a, mimes, m);
    }
  }

  /** Setting defaults in a file, unless a field would corrupt it, and reading the new file; every line that is
      not an entry of the three groups is still there, in order, before what new sections bring. */
  lemma SetDefaultsReadBack(original: seq<string>, mimes: seq<string>, desktopID: string) returns (more: seq<string>)
    requires (forall m | m in mimes :: WritableType(m)) && Item(DesktopId(desktopID))
    requires ManagedGroups(WithDefaults(AssociationsFrom(original), mimes, DesktopId(desktopID))).Some?
    ensures var before, id := AssociationsFrom(original), DesktopId(desktopID);
            var a := WithDefaults(before, mimes, id);
            && TypesAfter(before, a, AssociationsFrom(Render(EntriesOf(a), original)), mimes, id)
            && OtherLines(EntriesOf(a), Render(EntriesOf(a), original)) == OtherLines(EntriesOf(a), original) + more
    ensures forall line | line in more :: NewLine(line)
  {
    var before, id := AssociationsFrom(original), DesktopId(desktopID);
    var a := WithDefaults(before, mimes, id);
    FilesAreReadable(original);
    WithDefaultsIsReadable(before, mimes, id);
    ReadableIsLegible(a);
    WhatIsReadBack(a, original);
    more := OtherLinesSurvive(a, original);
    TypesReadBack(before, a, mimes, id);
  }

  lemma DefaultBesideRemoved(key: string, app: string)
    requires GoodKey(key) && Item(app) && IsSafeIniField(app)
    ensures var a := WithDefaults(Associations(map[], map[], map[key + " " := [app]]), [key], app);
            a == Associations(map[key := app], map[key := [app]], map[key + " " := [app]]) && Legible(a)
  {
    var before := Associations(map[], map[], map[key + " " := [app]]);
    assert [key][..0] == [] && [key][0] == key;
    assert WithDefaults(before, [], app) == before;
    assert |key + " "| != |key| && (key + " ")[0] == key[0];
    assert [] + [app] == [app];
  }

  lemma StillRemovedReread(key: string, app: string)
    requires GoodKey(key)
    ensures var after := RereadAll(Associations(map[key := app], map[key := [app]], map[key + " " := [app]]));
            after.defaults == map[key := app] && after.removed == map[key := [app]]
  {
    TrimSpaceTrims(key);
    RereadOne(key, app);
    BlankIsRereadAs(key, app);
  }

  lemma RemovedIsRead(key: string, locale: string, app: string)
    requires GoodKey(key) && '=' !in locale && Item(app)
    ensures AssociationsFrom(BlankBeforeLocale(REMOVED, key, locale, app))
         == Associations(map[], map[], map[key + " " := [app]])
  {
    BlankIsParsed(REMOVED, key, locale, app);
    OneRemoved(BlankBeforeLocale(REMOVED, key, locale, app), key + " ", app + ";", app);
  }

  lemma StillRemovedAfter(lines: seq<string>, a: Associations, key: string, app: string)
    requires GoodKey(key) && Legible(a)
    requires a == Associations(map[key := app], map[key := [app]], map[key + " " := [app]])
    ensures ManagedGroups(a).Some?
    ensures AssociationsFrom(Render(EntriesOf(a), lines)).defaults == map[key := app]
    ensures AssociationsFrom(Render(EntriesOf(a), lines)).removed == map[key := [app]]
  {
    WhatIsReadBack(a, lines);
    StillRemovedReread(key, app);
  }

  /** The case is real: an application set as the default of a type can still be listed as removed from it, under
      a spelling with a blank that reads as the type once the file is written. */
  lemma DefaultStillRemoved(key: string, locale: string, app: string)
    requires GoodKey(key) && '=' !in locale && Item(app) && IsSafeIniField(app)
    ensures var lines := BlankBeforeLocale(REMOVED, key, locale, app);
            var a := WithDefaults(AssociationsFrom(lines), [key], app);
            && ManagedGroups(a).Some?
            && AssociationsFrom(Render(EntriesOf(a), lines)).defaults == map[key := app]
            && AssociationsFrom(Render(EntriesOf(a), lines)).removed == map[key := [app]]
  {
    RemovedIsRead(key, locale, app);
    DefaultBesideRemoved(key, app);
    var lines := BlankBeforeLocale(REMOVED, key, locale, app);
    StillRemovedAfter(lines, WithDefaults(AssociationsFrom(lines), [key], app), key, app);
  }
}
