/** What desktop/parser.go reads in a file, told line by line. */
module MimeappsMeaning {
  import opened Wrappers
  import opened Text
  import opened MimeappsLists
  import opened Mimeapps

  // ---------------------------------------------------------------- one line

  /** Up to the first bracket, unless the key begins with one. */
  predicate WithoutLocale(key: string, bare: string) {
    if '[' in key && key[0] != '[' then bare < key && '[' !in bare && key[|bare|] == '[' else bare == key
  }

  /** The first equals sign of a line. */
  predicate SplitsAt(line: string, eq: nat) {
    eq < |line| && line[eq] == '=' && '=' !in line[..eq]
  }

  lemma FirstIndex(s: string, c: char)
    ensures IndexOfChar(s, c) < |s| <==> c in s
    ensures c !in s[..IndexOfChar(s, c)]
  {
  }

  lemma SplitIsFirst(line: string, eq: nat)
    requires SplitsAt(line, eq)
    ensures IndexOfChar(line, '=') == eq
  {
    FirstIndex(line, '=');
    assert forall k | 0 <= k < eq :: line[k] in line[..eq];
  }

  lemma LocaleIsCut(key: string)
    ensures WithoutLocale(key, CutLocale(key))
  {
    FirstIndex(key, '[');
  }

  /** An entry of a line, and nothing else: a key and a value around the first equals sign, both trimmed. */
  ghost predicate IsEntry(line: string, key: string, bare: string, value: string) {
    && line != "" && line[0] != '#' && !(line[0] == '[' && line[|line| - 1] == ']')
    && WithoutLocale(key, bare)
    && exists eq: nat ::
         SplitsAt(line, eq) && eq > 0 && key == TrimSpace(line[..eq]) && value == TrimSpace(line[eq + 1..])
  }

  lemma BracketInside(key: string, bare: string, longer: string)
    requires bare < key && longer <= key && |bare| < |longer| && key[|bare|] == '['
    ensures '[' in longer
  {
    assert longer[|bare|] == key[|bare|];
  }

  lemma BareIsUnique(key: string, bare: string, also: string)
    requires WithoutLocale(key, bare) && WithoutLocale(key, also)
    ensures bare == also
  {
    if '[' in key && key[0] != '[' {
      if |bare| < |also| { BracketInside(key, bare, also); }
      if |also| < |bare| { BracketInside(key, also, bare); }
    }
  }

  lemma EntryIsOne(raw: string)
    requires Classify(raw).Entry?
    ensures IsEntry(TrimSpace(raw), Classify(raw).key, Classify(raw).bare, Classify(raw).value)
  {
    var line := TrimSpace(raw);
    FirstIndex(line, '=');
    LocaleIsCut(Classify(raw).key);
    assert SplitsAt(line, IndexOfChar(line, '='));
  }

  lemma OneIsEntry(raw: string, key: string, bare: string, value: string)
    requires IsEntry(TrimSpace(raw), key, bare, value)
    ensures Classify(raw) == Entry(key, bare, value)
  {
    var line := TrimSpace(raw);
    var eq: nat :| SplitsAt(line, eq) && eq > 0 && key == TrimSpace(line[..eq]) && value == TrimSpace(line[eq + 1..]);
    SplitIsFirst(line, eq);
    LocaleIsCut(key);
    BareIsUnique(key, bare, CutLocale(key));
  }

  /** What a line is, after trimming: blank; a comment when it begins with a hash; a header when it is in brackets; an
      entry as above; and anything else is junk. */
  lemma ClassifyExactly(raw: string)
    ensures var line := TrimSpace(raw);
            && (Classify(raw).Blank? <==> line == "")
            && (Classify(raw).Comment? <==> line != "" && line[0] == '#')
            && (forall name :: Classify(raw) == Header(name) <==> line == "[" + name + "]")
            && forall key, bare, value ::
                 Classify(raw) == Entry(key, bare, value) <==> IsEntry(line, key, bare, value)
  {
    var line := TrimSpace(raw);
    forall name ensures Classify(raw) == Header(name) <==> line == "[" + name + "]" {
      if line == "[" + name + "]" { assert line[1..|line| - 1] == name; }
    }
    forall key, bare, value ensures Classify(raw) == Entry(key, bare, value) <==> IsEntry(line, key, bare, value) {
      if Classify(raw) == Entry(key, bare, value) { EntryIsOne(raw); }
      if IsEntry(line, key, bare, value) { OneIsEntry(raw, key, bare, value); }
    }
  }

  // ---------------------------------------------------------------- groups

  ghost predicate HeadedBy(text: seq<TextLine>, i: nat, group: string, h: nat) {
    && h < i <= |text| && text[h].kind == Header(group)
    && forall k | h < k < i :: !text[k].kind.Header?
  }

  /** The last header above the line, if there is one, is that of the group. */
  ghost predicate InGroup(text: seq<TextLine>, i: nat, group: string) {
    exists h: nat :: HeadedBy(text, i, group, h)
  }

  /** The line is an entry of the group under that key. */
  ghost predicate Says(text: seq<TextLine>, i: nat, group: string, key: string) {
    i < |text| && text[i].kind.Entry? && text[i].kind.bare == key && InGroup(text, i, group)
  }

  /** The first such line. */
  ghost predicate SaysFirst(text: seq<TextLine>, i: nat, group: string, key: string) {
    Says(text, i, group, key) && forall j: nat | j < i :: !Says(text, j, group, key)
  }

  lemma InGroupFront(text: seq<TextLine>, n: nat, i: nat, group: string)
    requires i <= n <= |text|
    ensures InGroup(text, i, group) <==> InGroup(text[..n], i, group)
  {
    if h: nat :| HeadedBy(text, i, group, h) { assert HeadedBy(text[..n], i, group, h); }
    if h: nat :| HeadedBy(text[..n], i, group, h) {
      assert forall k | h < k < i :: text[..n][k] == text[k];
      assert HeadedBy(text, i, group, h);
    }
  }

  lemma SaysFront(text: seq<TextLine>, n: nat, i: nat, group: string, key: string)
    requires i < n <= |text|
    ensures Says(text, i, group, key) <==> Says(text[..n], i, group, key)
  {
    InGroupFront(text, n, i, group);
  }

  lemma SaysFirstFront(text: seq<TextLine>, n: nat, i: nat, group: string, key: string)
    requires i < n <= |text|
    ensures SaysFirst(text, i, group, key) <==> SaysFirst(text[..n], i, group, key)
  {
    SaysFront(text, n, i, group, key);
    forall j: nat | j < i ensures Says(text, j, group, key) <==> Says(text[..n], j, group, key) {
      SaysFront(text, n, j, group, key);
    }
  }

  lemma InGroupMore(text: seq<TextLine>, n: nat, group: string)
    requires n < |text|
    ensures InGroup(text, n + 1, group) <==>
            if text[n].kind.Header? then text[n].kind.name == group else InGroup(text, n, group)
  {
    var m := n + 1;
    if text[n].kind.Header? {
      if text[n].kind.name == group { assert HeadedBy(text, n + 1, group, n); }
      if h: nat :| HeadedBy(text, m, group, h) { assert h == n; }
    } else {
      if h: nat :| HeadedBy(text, n, group, h) { assert HeadedBy(text, n + 1, group, h); }
      if h: nat :| HeadedBy(text, m, group, h) { assert HeadedBy(text, n, group, h); }
    }
  }

  /** The group in force is the one of the last header, and it is there. */
  lemma {:induction false} CurrentIs(text: seq<TextLine>, group: string)
    ensures var p := ParseFrom(NOTHING, text);
            && (p.current == Some(group) <==> InGroup(text, |text|, group))
            && (p.current.Some? ==> p.current.value in p.groups)
  {
    if text != [] {
      var n := |text| - 1;
      CurrentIs(text[..n], group);
      InGroupFront(text, n, n, group);
      InGroupMore(text, n, group);
      if text[n].kind.Header? { CurrentIs(text[..n], text[n].kind.name); }
    }
  }

  ghost predicate SomeSays(text: seq<TextLine>, group: string, key: string) {
    exists i :: SaysFirst(text, i, group, key)
  }

  lemma {:induction false} FirstExists(text: seq<TextLine>, j: nat, group: string, key: string)
    requires Says(text, j, group, key)
    ensures SomeSays(text, group, key)
    decreases j
  {
    if i: nat :| i < j && Says(text, i, group, key) {
      FirstExists(text, i, group, key);
    } else {
      assert SaysFirst(text, j, group, key);
    }
  }

  lemma SomeSaysMore(text: seq<TextLine>, group: string, key: string)
    requires text != []
    ensures var n := |text| - 1;
            && (forall i: nat | i < n :: SaysFirst(text, i, group, key) <==> SaysFirst(text[..n], i, group, key))
            && (SaysFirst(text, n, group, key) <==> Says(text, n, group, key) && !SomeSays(text[..n], group, key))
  {
    var n := |text| - 1;
    forall i: nat | i < n ensures SaysFirst(text, i, group, key) <==> SaysFirst(text[..n], i, group, key) {
      SaysFirstFront(text, n, i, group, key);
    }
    if SaysFirst(text, n, group, key) {
      if i: nat :| SaysFirst(text[..n], i, group, key) { SaysFront(text, n, i, group, key); }
    }
    if Says(text, n, group, key) && !SomeSays(text[..n], group, key) {
      forall j: nat | j < n ensures !Says(text, j, group, key) {
        SaysFront(text, n, j, group, key);
        if Says(text[..n], j, group, key) { FirstExists(text[..n], j, group, key); }
      }
    }
  }

  lemma ParseLineMore(p: Parsed, line: TextLine, group: string, key: string)
    requires p.current.Some? ==> p.current.value in p.groups
    ensures var was, now := GroupOf(p, group), GroupOf(ParseLine(p, line), group);
            if line.kind.Entry? && line.kind.bare == key && p.current == Some(group) && key !in was
            then key in now && now[key] == line.kind.value
            else (key in now <==> key in was) && (key in was ==> now[key] == was[key])
  {
  }

  lemma ParseMore(text: seq<TextLine>, group: string, key: string)
    requires text != []
    ensures var n := |text| - 1;
            var was, now := GroupOf(ParseFrom(NOTHING, text[..n]), group), GroupOf(ParseFrom(NOTHING, text), group);
            if Says(text, n, group, key) && key !in was then key in now && now[key] == text[n].kind.value
            else (key in now <==> key in was) && (key in was ==> now[key] == was[key])
  {
    var n := |text| - 1;
    CurrentIs(text[..n], group);
    InGroupFront(text, n, n, group);
    ParseLineMore(ParseFrom(NOTHING, text[..n]), text[n], group, key);
  }

  /** A group of the file says of a key what its first line for it says, and nothing when there is none. A group may
      be headed more than once. */
  lemma {:induction false} FirstLineCounts(text: seq<TextLine>, group: string, key: string)
    ensures var entries := GroupOf(ParseFrom(NOTHING, text), group);
            && (key in entries <==> SomeSays(text, group, key))
            && (forall i: nat | SaysFirst(text, i, group, key) :: key in entries && entries[key] == text[i].kind.value)
  {
    if text != [] {
      FirstLineCounts(text[..|text| - 1], group, key);
      SomeSaysMore(text, group, key);
      ParseMore(text, group, key);
    }
  }

  // ---------------------------------------------------------------- lists

  lemma {:induction false} SplitJoins(a: string, b: string, c: char)
    ensures Split(a + [c] + b, c) == Split(a, c) + Split(b, c)
  {
    var whole := a + [c] + b;
    if b == "" {
      assert whole[..|whole| - 1] == a;
    } else {
      SplitJoins(a, b[..|b| - 1], c);
      assert whole[..|whole| - 1] == a + [c] + b[..|b| - 1];
      var before := Split(b[..|b| - 1], c);
      assert (Split(a, c) + before)[|Split(a, c)| + |before| - 1] == before[|before| - 1];
    }
  }

  lemma {:induction false} ItemsJoin(a: seq<string>, b: seq<string>)
    ensures Items(a + b) == Items(a) + Items(b)
  {
    if b == [] {
      assert a + b == a;
    } else {
      ItemsJoin(a, b[..|b| - 1]);
      assert (a + b)[..|a + b| - 1] == a + b[..|b| - 1];
    }
  }

  /** A list is read part by part between semicolons; a part is trimmed, and dropped when it is blank. */
  lemma ListIsReadByParts(a: string, b: string)
    ensures ListOf(a + ";" + b) == ListOf(a) + ListOf(b)
    ensures ';' !in a ==> ListOf(a) == if TrimSpace(a) == "" then [] else [TrimSpace(a)]
  {
    SplitJoins(a, b, ';');
    ItemsJoin(Split(a, ';'), Split(b, ';'));
    if ';' !in a {
      SplitWhole(a, ';');
      assert [a][..0] == [];
    }
  }

  /** The group's lists: each key with what its first line lists. */
  ghost predicate ListsSaid(text: seq<TextLine>, group: string, lists: map<string, seq<string>>, key: string) {
    && (key in lists <==> SomeSays(text, group, key))
    && forall i: nat | SaysFirst(text, i, group, key) :: key in lists && lists[key] == ListOf(text[i].kind.value)
  }

  /** The group's defaults: each key with the first that its first line lists, and none for an empty list. */
  ghost predicate FirstsSaid(text: seq<TextLine>, group: string, firsts: map<string, string>, key: string) {
    && (key in firsts ==> SomeSays(text, group, key))
    && forall i: nat | SaysFirst(text, i, group, key) ::
         var list := ListOf(text[i].kind.value);
         if list == [] then key !in firsts else key in firsts && firsts[key] == list[0]
  }

  lemma ListsAreSaid(text: seq<TextLine>, group: string, key: string)
    ensures ListsSaid(text, group, ListsOf(GroupOf(ParseFrom(NOTHING, text), group)), key)
  {
    FirstLineCounts(text, group, key);
  }

  lemma FirstsAreSaid(text: seq<TextLine>, group: string, key: string)
    ensures FirstsSaid(text, group, FirstsOf(GroupOf(ParseFrom(NOTHING, text), group)), key)
  {
    FirstLineCounts(text, group, key);
  }

  /** What a file says of a type: the first application listed as its default, and those added and removed. */
  lemma FileSays(lines: seq<string>, mime: string)
    ensures var text, a := ReadLines(lines), AssociationsFrom(lines);
            && FirstsSaid(text, "Default Applications", a.defaults, mime)
            && ListsSaid(text, "Added Associations", a.added, mime)
            && ListsSaid(text, "Removed Associations", a.removed, mime)
  {
    FirstsAreSaid(ReadLines(lines), "Default Applications", mime);
    ListsAreSaid(ReadLines(lines), "Added Associations", mime);
    ListsAreSaid(ReadLines(lines), "Removed Associations", mime);
  }

  // ---------------------------------------------------------------- what is refused

  /** Without line ends and brackets, which would corrupt a line. */
  predicate Clean(s: string) {
    forall i | 0 <= i < |s| :: s[i] != '\n' && s[i] != '\r' && s[i] != '[' && s[i] != ']'
  }

  predicate AllClean(list: seq<string>) {
    forall i | 0 <= i < |list| :: Clean(list[i])
  }

  lemma CleanJoins(a: string, b: string)
    ensures Clean(a + b) <==> Clean(a) && Clean(b)
  {
    if Clean(a + b) {
      assert forall i | 0 <= i < |a| :: a[i] == (a + b)[i];
      assert forall i | 0 <= i < |b| :: b[i] == (a + b)[|a| + i];
    }
  }

  lemma {:induction false} ListIsClean(list: seq<string>)
    ensures Clean(Join(list, ";")) <==> AllClean(list)
  {
    if |list| > 1 {
      var front, last := list[..|list| - 1], list[|list| - 1];
      ListIsClean(front);
      CleanJoins(Join(front, ";") + ";", last);
      CleanJoins(Join(front, ";"), ";");
      assert AllClean(list) <==> AllClean(front) && Clean(last) by {
        assert forall i | 0 <= i < |front| :: front[i] == list[i];
      }
    }
  }

  ghost predicate CleanLists(lists: map<string, seq<string>>) {
    forall k | k in lists :: Clean(k) && AllClean(lists[k])
  }

  lemma ListsAreSafeExactly(lists: map<string, seq<string>>)
    ensures AllSafe(FlattenAll(lists)) <==> CleanLists(lists)
  {
    var flat := FlattenAll(lists);
    forall k | k in lists ensures IsSafeIniField(flat[k]) <==> AllClean(lists[k]) {
      ListIsClean(lists[k]);
      CleanJoins(Join(lists[k], ";"), ";");
      assert flat[k] == Join(lists[k], ";") + ";";
    }
  }

  /** Nothing is written when a type or an application holds a line end or a bracket, and only then. */
  lemma RefusesExactly(a: Associations)
    ensures ManagedGroups(a) == None <==>
            !(CleanLists(a.added) && CleanLists(a.removed)
              && forall k | k in a.defaults :: Clean(k) && Clean(a.defaults[k]))
  {
    ListsAreSafeExactly(a.added);
    ListsAreSafeExactly(a.removed);
  }
}
