/** Reading and rewriting a mimeapps.list, line by line: desktop/parser.go and desktop/mimeapps.go. */
module Mimeapps {
  import opened Wrappers
  import opened Text
  import opened MimeappsLists

  const DEFAULTS := "Default Applications"
  const ADDED := "Added Associations"
  const REMOVED := "Removed Associations"

  datatype Associations = Associations(defaults: map<string, string>,
                                       added: map<string, seq<string>>, removed: map<string, seq<string>>)

  // ---------------------------------------------------------------- one line

  /** What a line is. An entry's key is told as written and bare, without its locale; junk has no key. */
  datatype Kind = Blank | Comment | Header(name: string) | Entry(key: string, bare: string, value: string) | Junk

  /** A line together with what it is. */
  datatype TextLine = TextLine(raw: string, kind: Kind)

  /** The key without its locale. */
  function CutLocale(key: string): string {
    var bracket := IndexOfChar(key, '[');
    if 0 < bracket < |key| then key[..bracket] else key
  }

  function Classify(raw: string): Kind {
    var line := TrimSpace(raw);
    if line == "" then Blank
    else if line[0] == '#' then Comment
    else if line[0] == '[' && line[|line| - 1] == ']' then Header(line[1..|line| - 1])
    else
      var eq := IndexOfChar(line, '=');
      if eq == 0 || eq == |line| then Junk
      else
        var key := TrimSpace(line[..eq]);
        Entry(key, CutLocale(key), TrimSpace(line[eq + 1..]))
  }

  function ReadLine(raw: string): TextLine {
    TextLine(raw, Classify(raw))
  }

  function ReadLines(lines: seq<string>): seq<TextLine> {
    seq(|lines|, i requires 0 <= i < |lines| => ReadLine(lines[i]))
  }

  function Raws(text: seq<TextLine>): seq<string> {
    seq(|text|, i requires 0 <= i < |text| => text[i].raw)
  }

  // ---------------------------------------------------------------- parsing

  datatype Parsed = Parsed(groups: map<string, map<string, string>>, current: Option<string>)

  const NOTHING := Parsed(map[], None)

  function ParseLine(p: Parsed, line: TextLine): Parsed {
    match line.kind
    case Header(name) => Parsed(if name in p.groups then p.groups else p.groups[name := map[]], Some(name))
    case Entry(_, key, value) =>
      if p.current == None || p.current.value !in p.groups || key in p.groups[p.current.value] then p
      else p.(groups := p.groups[p.current.value := p.groups[p.current.value][key := value]])
    case _ => p
  }

  function ParseFrom(p: Parsed, text: seq<TextLine>): Parsed {
    if text == [] then p else ParseLine(ParseFrom(p, text[..|text| - 1]), text[|text| - 1])
  }

  function ParseGroups(lines: seq<string>): Parsed {
    ParseFrom(NOTHING, ReadLines(lines))
  }

  /** The keys of one group; a group that is not there has none. */
  function GroupOf(p: Parsed, group: string): map<string, string> {
    if group in p.groups then p.groups[group] else map[]
  }

  function ListsOf(group: map<string, string>): map<string, seq<string>> {
    map k | k in group :: ListOf(group[k])
  }

  function FirstsOf(group: map<string, string>): map<string, string> {
    map k | k in group && ListOf(group[k]) != [] :: ListOf(group[k])[0]
  }

  /** The associations a file holds. */
  function AssociationsFrom(lines: seq<string>): Associations {
    var p := ParseGroups(lines);
    Associations(FirstsOf(GroupOf(p, DEFAULTS)), ListsOf(GroupOf(p, ADDED)), ListsOf(GroupOf(p, REMOVED)))
  }

  // ---------------------------------------------------------------- what is to be written

  type Entries = map<string, string>
  type Managed = map<string, Entries>

  predicate IsSafeIniField(s: string) {
    '\n' !in s && '\r' !in s && '[' !in s && ']' !in s
  }

  function FlattenAll(lists: map<string, seq<string>>): Entries {
    map k | k in lists :: Flatten(lists[k])
  }

  predicate AllSafe(entries: Entries) {
    forall k | k in entries :: IsSafeIniField(k) && IsSafeIniField(entries[k])
  }

  predicate Three(managed: Managed) {
    managed.Keys == {DEFAULTS, ADDED, REMOVED}
  }

  function EntriesOf(a: Associations): (managed: Managed)
    ensures Three(managed)
  {
    map[DEFAULTS := a.defaults, ADDED := FlattenAll(a.added), REMOVED := FlattenAll(a.removed)]
  }

  /** The three groups' entries, or none when a field would corrupt the file. */
  function ManagedGroups(a: Associations): Option<Managed> {
    if AllSafe(a.defaults) && AllSafe(FlattenAll(a.added)) && AllSafe(FlattenAll(a.removed)) then Some(EntriesOf(a))
    else None
  }

  // ---------------------------------------------------------------- rendering

  /** The text so far, the group it is in, and the entries already in it. */
  datatype Rendering = Rendering(out: seq<TextLine>, current: string, written: set<(string, string)>)

  const START := Rendering([], "", {})

  const GAP := TextLine("", Blank)

  function EntryText(key: string, value: string): TextLine {
    TextLine(key + "=" + value, Entry(key, key, value))
  }

  function HeaderText(group: string): TextLine {
    TextLine("[" + group + "]", Header(group))
  }

  function EntryTexts(entries: Entries, keys: seq<string>): seq<TextLine>
    requires forall k | k in keys :: k in entries
  {
    seq(|keys|, i requires 0 <= i < |keys| => EntryText(keys[i], entries[keys[i]]))
  }

  /** Where the trailing blank lines begin. */
  function BodyEnd(out: seq<TextLine>): (at: nat)
    ensures at <= |out| && (forall i | at <= i < |out| :: out[i].kind == Blank)
    ensures at > 0 ==> out[at - 1].kind != Blank
  {
    if out == [] || out[|out| - 1].kind != Blank then |out| else BodyEnd(out[..|out| - 1])
  }

  function Missing(managed: Managed, r: Rendering, group: string): set<string>
    requires group in managed
  {
    set k | k in managed[group] && (group, k) !in r.written
  }

  function Marks(group: string, keys: set<string>): set<(string, string)> {
    set k | k in keys :: (group, k)
  }

  lemma MissingAreEntries(managed: Managed, r: Rendering, group: string)
    requires group in managed
    ensures forall k | k in SortedKeys(Missing(managed, r, group)) :: k in managed[group]
  {
    SortedKeysAreTheKeys(Missing(managed, r, group));
  }

  /** flushMissing: what the current group still lacks goes in before its trailing blank lines. */
  function Flush(managed: Managed, r: Rendering): Rendering {
    if r.current !in managed then r
    else
      var missing := Missing(managed, r, r.current);
      var at := BodyEnd(r.out);
      MissingAreEntries(managed, r, r.current);
      Rendering(r.out[..at] + EntryTexts(managed[r.current], SortedKeys(missing)) + r.out[at..], r.current,
                r.written + Marks(r.current, missing))
  }

  function Keep(r: Rendering, line: TextLine): Rendering {
    r.(out := r.out + [line])
  }

  function RenderLine(managed: Managed, r: Rendering, line: TextLine): Rendering {
    match line.kind
    case Header(name) => Keep(Flush(managed, r), line).(current := name)
    case Entry(key, _, _) =>
      if r.current !in managed then Keep(r, line)
      else if key !in managed[r.current] || (r.current, key) in r.written then r
      else Rendering(r.out + [EntryText(key, managed[r.current][key])], r.current, r.written + {(r.current, key)})
    case _ => Keep(r, line)
  }

  function RenderFrom(managed: Managed, r: Rendering, text: seq<TextLine>): Rendering {
    if text == [] then r else RenderLine(managed, RenderFrom(managed, r, text[..|text| - 1]), text[|text| - 1])
  }

  function GapAfter(out: seq<TextLine>): seq<TextLine> {
    if |out| > 0 && out[|out| - 1].kind != Blank then [GAP] else []
  }

  /** A group that still lacks entries gets a section at the end. */
  function AppendGroup(managed: Managed, r: Rendering, group: string): Rendering
    requires group in managed
  {
    var missing := Missing(managed, r, group);
    if missing == {} then r
    else
      MissingAreEntries(managed, r, group);
      Rendering(r.out + GapAfter(r.out) + [HeaderText(group)] + EntryTexts(managed[group], SortedKeys(missing)), group,
                r.written + Marks(group, missing))
  }

  function AppendGroups(managed: Managed, r: Rendering): Rendering
    requires Three(managed)
  {
    AppendGroup(managed, AppendGroup(managed, AppendGroup(managed, r, DEFAULTS), ADDED), REMOVED)
  }

  function RenderText(managed: Managed, text: seq<TextLine>): Rendering
    requires Three(managed)
  {
    AppendGroups(managed, Flush(managed, RenderFrom(managed, START, text)))
  }

  /** The rewritten lines. */
  function Render(managed: Managed, original: seq<string>): seq<string>
    requires Three(managed)
  {
    Raws(RenderText(managed, ReadLines(original)).out)
  }
}
