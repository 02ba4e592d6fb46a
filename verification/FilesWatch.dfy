/** What a directory watch does to its state: files/watch.go and files/filter.go, as functions on values. */
module FilesWatch {
  import opened Wrappers
  import opened Text
  import opened FilesSort
  import opened FilesList
  import opened FilesDiff

  const PENDING_CAP := 64

  // ---------------------------------------------------------------- the view

  /** A glob pattern, as the set of names it matches, case ignored. */
  type Pattern = string -> bool

  predicate Passes(filters: seq<Pattern>, e: Entry) {
    |filters| == 0 || e.isDir || exists i :: 0 <= i < |filters| && filters[i](e.name)
  }

  function Visible(includeHidden: bool, filters: seq<Pattern>): Entry -> bool {
    (e: Entry) => !(e.hidden && !includeHidden) && Passes(filters, e)
  }

  function FilterView(entries: seq<Entry>, includeHidden: bool, filters: seq<Pattern>): seq<Entry> {
    if includeHidden && |filters| == 0 then entries else Filter(Visible(includeHidden, filters), entries)
  }

  lemma FilterViewFilters(entries: seq<Entry>, includeHidden: bool, filters: seq<Pattern>)
    ensures FilterView(entries, includeHidden, filters) == Filter(Visible(includeHidden, filters), entries)
  {
  }

  /** Whether an entry is shown: hidden ones if they are asked for, and those that match a pattern if there are
      patterns, though directories always. */
  predicate Shows(includeHidden: bool, filters: seq<Pattern>, e: Entry) {
    && (e.hidden ==> includeHidden)
    && (filters == [] || e.isDir || exists i | 0 <= i < |filters| :: filters[i](e.name))
  }

  /** The view: the entries that are shown, all of them, in the order they stand in. */
  lemma ViewShows(entries: seq<Entry>, includeHidden: bool, filters: seq<Pattern>) returns (places: seq<int>)
    ensures PickedAt(e => Shows(includeHidden, filters, e), entries, FilterView(entries, includeHidden, filters),
                     places)
  {
    var p := e => Shows(includeHidden, filters, e);
    FilterViewFilters(entries, includeHidden, filters);
    forall e ensures p(e) == Visible(includeHidden, filters)(e) {
      assert Passes(filters, e) <==> filters == [] || e.isDir || exists i | 0 <= i < |filters| :: filters[i](e.name);
    }
    FilterAgrees(p, Visible(includeHidden, filters), entries);
    places := FilterPicks(p, entries);
  }

  // ---------------------------------------------------------------- the state

  datatype Server = Server(
    entries: seq<Entry>,
    spec: SortSpec,
    includeHidden: bool,
    filters: seq<Pattern>,
    seqNo: nat,
    subscribed: bool,
    pending: seq<Batch>,
    dropped: bool,
    topic: seq<Batch>)   // everything published so far

  function View(s: Server): seq<Entry> {
    FilterView(s.entries, s.includeHidden, s.filters)
  }

  /** publishLocked: number the batch and send it, buffer it, or drop the buffer. */
  function Publish(s: Server, b: Batch): Server {
    if b.kind.Changes? && |b.added| + |b.changed| + |b.removed| == 0 then s
    else
      var n := s.seqNo + 1;
      if s.subscribed then s.(seqNo := n, topic := s.topic + [b.(seqNo := n)])
      else if |s.pending| >= PENDING_CAP then s.(seqNo := n, pending := [], dropped := true)
      else s.(seqNo := n, pending := s.pending + [b.(seqNo := n)])
  }

  /** What reading one changed file yields. */
  datatype Reading = Missing | Unreadable | Found(entry: Entry)

  datatype FileChange = FileChange(name: string, reading: Reading)

  function CarryThumbnail(stored: Entry, found: Entry): string {
    if stored.mtimeMs == found.mtimeMs then stored.thumbnail else ""
  }

  /** One iteration of flush: the file is gone, unreadable, known, or new. */
  function FlushOne(entries: seq<Entry>, spec: SortSpec, change: FileChange): seq<Entry> {
    var i := IndexOf(entries, change.name);
    match change.reading
    case Missing => if i < |entries| then DeleteAt(entries, i) else entries
    case Unreadable => entries
    case Found(entry) =>
      var e := entry.(name := change.name);
      if i < |entries| then Resorted(spec, entries[i := e.(thumbnail := CarryThumbnail(entries[i], e))], i)
      else Inserted(spec, entries, e)
  }

  function FlushAll(entries: seq<Entry>, spec: SortSpec, changes: seq<FileChange>): seq<Entry> {
    if changes == [] then entries
    else FlushOne(FlushAll(entries, spec, changes[..|changes| - 1]), spec, changes[|changes| - 1])
  }

  function Touched(changes: seq<FileChange>): set<string> {
    set c | c in changes :: c.name
  }

  lemma FlushOneMore(entries: seq<Entry>, spec: SortSpec, changes: seq<FileChange>, i: nat)
    requires i < |changes|
    ensures FlushAll(entries, spec, changes[..i + 1]) ==
            FlushOne(FlushAll(entries, spec, changes[..i]), spec, changes[i])
    ensures Touched(changes[..i + 1]) == Touched(changes[..i]) + {changes[i].name}
  {
    assert changes[..i + 1] == changes[..i] + [changes[i]];
    assert changes[..i + 1][..i] == changes[..i];
  }

  function Flush(s: Server, changes: seq<FileChange>): Server {
    var s' := s.(entries := FlushAll(s.entries, s.spec, changes));
    Publish(s', Diff(Names(View(s)), View(s'), Touched(changes)))
  }

  /** The stored entry that an enriched snapshot replaces. */
  predicate Matches(entries: seq<Entry>, e: Entry) {
    var i := IndexOf(entries, e.name);
    i < |entries| && entries[i].mtimeMs == e.mtimeMs
  }

  function Keyed(entries: seq<Entry>, e: Entry): Entry
    requires Matches(entries, e)
  {
    e.(nameKey := entries[IndexOf(entries, e.name)].nameKey)
  }

  /** The loop of applyChanged: the entries afterwards, and what was applied. */
  function ApplyAll(entries: seq<Entry>, changed: seq<Entry>): (seq<Entry>, seq<Entry>) {
    if changed == [] then (entries, [])
    else
      var (now, applied) := ApplyAll(entries, changed[..|changed| - 1]);
      var e := changed[|changed| - 1];
      if Matches(now, e) then (now[IndexOf(now, e.name) := Keyed(now, e)], applied + [Keyed(now, e)])
      else (now, applied)
  }

  function ApplyChanged(s: Server, changed: seq<Entry>, kind: Kind): Server {
    var (now, applied) := ApplyAll(s.entries, changed);
    var s' := s.(entries := now);
    var seen := FilterView(applied, s.includeHidden, s.filters);
    if seen == [] then s'
    else if kind.Thumbnails? then Publish(s', EmptyBatch(kind).(thumbnails := seen))
    else Publish(s', EmptyBatch(kind).(changed := seen))
  }

  function ResyncFrom(s: Server, listing: seq<Entry>): Server {
    Publish(s.(entries := SortEntries(s.spec, listing)), EmptyBatch(Resync))
  }

  function PublishGone(s: Server): Server {
    Publish(s, EmptyBatch(Gone))
  }

  /** attach: what was buffered is published; an overflowed buffer becomes one resync. */
  function Attach(s: Server): Server {
    if s.dropped then
      s.(subscribed := true, pending := [], dropped := false, seqNo := s.seqNo + 1,
         topic := s.topic + [EmptyBatch(Resync).(seqNo := s.seqNo + 1)])
    else s.(subscribed := true, pending := [], topic := s.topic + s.pending)
  }

  datatype ListOptions = ListOptions(
    includeHidden: bool, filters: seq<Pattern>, sort: SortSpec, limit: Int, cursor: string)

  /** What a page request does to the watch before the page is cut. */
  function Configure(s: Server, opts: ListOptions): Server {
    s.(spec := opts.sort,
       entries := if opts.sort != s.spec then SortEntries(opts.sort, s.entries) else s.entries,
       includeHidden := opts.includeHidden,
       filters := opts.filters)
  }

  /** A page request changes the order, what is shown and nothing else; what is listed stays. */
  lemma ConfigureTells(s: Server, opts: ListOptions)
    ensures var s' := Configure(s, opts);
            && s'.spec == opts.sort && s'.includeHidden == opts.includeHidden && s'.filters == opts.filters
            && multiset(s'.entries) == multiset(s.entries)
            && (Sorted(s.spec, s.entries) ==> Sorted(opts.sort, s'.entries))
            && (opts.sort == s.spec ==> s'.entries == s.entries)
            && s' == s.(spec := s'.spec, entries := s'.entries, includeHidden := s'.includeHidden,
                        filters := s'.filters)
  {
    SortEntriesSorts(opts.sort, s.entries);
  }

  /** What is published to an attached client: one batch with the next number, unless it is an empty change. */
  ghost predicate Publishes(s: Server, s': Server, kind: Kind) {
    && s'.seqNo == s.seqNo + 1 && |s'.topic| == |s.topic| + 1 && s'.topic[..|s.topic|] == s.topic
    && s'.topic[|s.topic|].kind == kind && s'.topic[|s.topic|].seqNo == s'.seqNo
  }

  /** A resync replaces all entries by the sorted listing and tells the client so; the end of the directory is
      told too. */
  lemma ResyncTells(s: Server, listing: seq<Entry>)
    ensures var s' := ResyncFrom(s, listing);
            && Sorted(s.spec, s'.entries) && multiset(s'.entries) == multiset(listing)
            && (s.subscribed ==> Publishes(s, s', Resync))
    ensures s.subscribed ==> Publishes(s, PublishGone(s), Gone)
  {
    SortEntriesSorts(s.spec, listing);
  }

  // ---------------------------------------------------------------- names stay distinct

  lemma DeleteUntouched(s: seq<Entry>, i: nat, touched: set<string>)
    requires i < |s| && s[i].name in touched
    ensures SameUntouched(s, DeleteAt(s, i), touched)
  {
    var p := Outside(touched);
    assert s == s[..i] + [s[i]] + s[i + 1..];
    assert Filter(p, s) == Filter(p, s[..i] + [s[i]]) + Filter(p, s[i + 1..]) by {
      FilterConcat(p, s[..i] + [s[i]], s[i + 1..]);
    }
    assert Filter(p, s[..i] + [s[i]]) == Filter(p, s[..i]) + [] by {
      FilterConcat(p, s[..i], [s[i]]);
      FilterOne(p, s[i]);
    }
    assert Filter(p, DeleteAt(s, i)) == Filter(p, s[..i]) + Filter(p, s[i + 1..]) by {
      FilterConcat(p, s[..i], s[i + 1..]);
    }
  }

  lemma InsertUntouched(s: seq<Entry>, i: nat, e: Entry, touched: set<string>)
    requires i <= |s| && e.name in touched
    ensures SameUntouched(s, InsertAt(s, i, e), touched)
  {
    var r := InsertAt(s, i, e);
    DeleteUntouched(r, i, touched);
    assert DeleteAt(r, i) == s;
  }

  lemma DeleteDistinct(s: seq<Entry>, i: nat)
    requires DistinctNames(s) && i < |s|
    ensures DistinctNames(DeleteAt(s, i)) && s[i].name !in NameSet(DeleteAt(s, i))
  {
  }

  lemma InsertDistinct(s: seq<Entry>, i: nat, e: Entry)
    requires DistinctNames(s) && i <= |s| && e.name !in NameSet(s)
    ensures DistinctNames(InsertAt(s, i, e))
  {
  }

  /** One change deletes, moves or inserts entries of its own name only. */
  lemma FlushOneKeeps(s: seq<Entry>, spec: SortSpec, c: FileChange, touched: set<string>)
    requires DistinctNames(s) && c.name in touched
    ensures DistinctNames(FlushOne(s, spec, c)) && SameUntouched(s, FlushOne(s, spec, c), touched)
  {
    var i := IndexOf(s, c.name);
    IndexOfIn(s, c.name);
    match c.reading
    case Unreadable =>
    case Missing =>
      if i < |s| {
        DeleteDistinct(s, i);
        DeleteUntouched(s, i, touched);
      }
    case Found(entry) =>
      var e := entry.(name := c.name);
      if i < |s| {
        var e' := e.(thumbnail := CarryThumbnail(s[i], e));
        var rest := DeleteAt(s, i);
        DeleteDistinct(s, i);
        DeleteUntouched(s, i, touched);
        assert DeleteAt(s[i := e'], i) == rest;
        InsertDistinct(rest, SearchIndex(spec, rest, e'), e');
        InsertUntouched(rest, SearchIndex(spec, rest, e'), e', touched);
      } else {
        InsertDistinct(s, SearchIndex(spec, s, e), e);
        InsertUntouched(s, SearchIndex(spec, s, e), e, touched);
      }
  }

  lemma {:induction false} FlushAllKeeps(s: seq<Entry>, spec: SortSpec, changes: seq<FileChange>, touched: set<string>)
    requires DistinctNames(s) && Touched(changes) <= touched
    ensures DistinctNames(FlushAll(s, spec, changes)) && SameUntouched(s, FlushAll(s, spec, changes), touched)
  {
    if changes != [] {
      var front, last := changes[..|changes| - 1], changes[|changes| - 1];
      assert changes == front + [last] && last in changes;
      assert Touched(front) <= Touched(changes) && last.name in Touched(changes);
      FlushAllKeeps(s, spec, front, touched);
      FlushOneKeeps(FlushAll(s, spec, front), spec, last, touched);
    }
  }

  // ---------------------------------------------------------------- what a flush leaves of each name

  /** Of the changes to a name that could be read, the last one is at k. */
  predicate LastRead(changes: seq<FileChange>, k: nat, name: string) {
    && k < |changes| && changes[k].name == name && !changes[k].reading.Unreadable?
    && forall j | k < j < |changes| && changes[j].name == name :: changes[j].reading.Unreadable?
  }

  /** Both lists have the same entry of that name, or none. */
  ghost predicate SameNamed(a: seq<Entry>, b: seq<Entry>, name: string) {
    forall e: Entry | e.name == name :: e in a <==> e in b
  }

  /** The one entry of that name is what was found, with the thumbnail the list had for the same file unmodified. */
  ghost predicate HoldsFound(before: seq<Entry>, now: seq<Entry>, name: string, found: Entry) {
    exists e | e in now ::
      && e.name == name && e == found.(name := name, thumbnail := e.thumbnail)
      && (forall x | x in now && x.name == name :: x == e)
      && (forall x | x in before && x.name == name ::
            e.thumbnail == if x.mtimeMs == found.mtimeMs then x.thumbnail else "")
      && (name !in NameSet(before) ==> e.thumbnail == found.thumbnail)
  }

  lemma DeleteForgets(s: seq<Entry>, i: nat, name: string)
    requires i < |s| && s[i].name != name
    ensures SameNamed(s, DeleteAt(s, i), name)
  {
    assert s == s[..i] + [s[i]] + s[i + 1..];
  }

  lemma InsertRemembers(s: seq<Entry>, i: nat, e: Entry, name: string)
    requires i <= |s| && e.name != name
    ensures SameNamed(s, InsertAt(s, i, e), name)
  {
    assert s == s[..i] + s[i..];
  }

  /** A change says nothing of other names. */
  lemma FlushOneElsewhere(s: seq<Entry>, spec: SortSpec, c: FileChange, name: string)
    requires c.name != name || c.reading.Unreadable?
    ensures SameNamed(s, FlushOne(s, spec, c), name)
  {
    var i := IndexOf(s, c.name);
    match c.reading
    case Unreadable =>
    case Missing => if i < |s| { DeleteForgets(s, i, name); }
    case Found(entry) =>
      var e := entry.(name := c.name);
      if i < |s| {
        var e' := e.(thumbnail := CarryThumbnail(s[i], e));
        var rest := DeleteAt(s, i);
        assert DeleteAt(s[i := e'], i) == rest;
        DeleteForgets(s, i, name);
        InsertRemembers(rest, SearchIndex(spec, rest, e'), e', name);
      } else {
        InsertRemembers(s, SearchIndex(spec, s, e), e, name);
      }
  }

  lemma InsertIsNamed(s: seq<Entry>, i: nat, e: Entry)
    requires i <= |s| && e.name !in NameSet(s)
    ensures e in InsertAt(s, i, e)
    ensures forall x | x in InsertAt(s, i, e) && x.name == e.name :: x == e
  {
    assert InsertAt(s, i, e)[i] == e;
    assert forall x | x in s :: x.name in NameSet(s);
  }

  lemma MissingIsForgotten(s: seq<Entry>, spec: SortSpec, c: FileChange)
    requires DistinctNames(s) && c.reading.Missing?
    ensures c.name !in NameSet(FlushOne(s, spec, c))
  {
    IndexOfIn(s, c.name);
    if IndexOf(s, c.name) < |s| { DeleteDistinct(s, IndexOf(s, c.name)); }
  }

  lemma FoundIsHeld(s: seq<Entry>, spec: SortSpec, c: FileChange)
    requires DistinctNames(s) && c.reading.Found?
    ensures HoldsFound(s, FlushOne(s, spec, c), c.name, c.reading.entry)
  {
    var i, e := IndexOf(s, c.name), c.reading.entry.(name := c.name);
    IndexOfIn(s, c.name);
    if i < |s| {
      var e' := e.(thumbnail := CarryThumbnail(s[i], e));
      var rest := DeleteAt(s, i);
      assert DeleteAt(s[i := e'], i) == rest;
      DeleteDistinct(s, i);
      InsertIsNamed(rest, SearchIndex(spec, rest, e'), e');
      forall x | x in s && x.name == c.name ensures x == s[i] { DistinctNamesOf(s, x, s[i]); }
      assert e' in FlushOne(s, spec, c);
    } else {
      InsertIsNamed(s, SearchIndex(spec, s, e), e);
      assert e in FlushOne(s, spec, c);
    }
  }

  lemma {:induction false} FlushAllElsewhere(s: seq<Entry>, spec: SortSpec, changes: seq<FileChange>, name: string)
    requires forall c | c in changes && c.name == name :: c.reading.Unreadable?
    ensures SameNamed(s, FlushAll(s, spec, changes), name)
  {
    if changes != [] {
      var front, last := changes[..|changes| - 1], changes[|changes| - 1];
      assert last in changes;
      FlushAllElsewhere(s, spec, front, name);
      FlushOneElsewhere(FlushAll(s, spec, front), spec, last, name);
    }
  }

  lemma {:induction false} FlushAllAfter(s: seq<Entry>, spec: SortSpec, changes: seq<FileChange>, name: string, k: nat)
    requires LastRead(changes, k, name)
    ensures SameNamed(FlushAll(s, spec, changes[..k + 1]), FlushAll(s, spec, changes), name)
  {
    if k + 1 == |changes| {
      assert changes[..k + 1] == changes;
    } else {
      var front := changes[..|changes| - 1];
      FlushAllAfter(s, spec, front, name, k);
      assert front[..k + 1] == changes[..k + 1];
      FlushOneElsewhere(FlushAll(s, spec, front), spec, changes[|changes| - 1], name);
    }
  }

  lemma SameNamedHolds(before: seq<Entry>, a: seq<Entry>, b: seq<Entry>, name: string, found: Entry)
    requires SameNamed(a, b, name) && HoldsFound(before, a, name, found)
    ensures HoldsFound(before, b, name, found)
  {
    var e :| e in a && e.name == name && e == found.(name := name, thumbnail := e.thumbnail)
             && (forall x | x in a && x.name == name :: x == e)
             && (forall x | x in before && x.name == name ::
                   e.thumbnail == if x.mtimeMs == found.mtimeMs then x.thumbnail else "")
             && (name !in NameSet(before) ==> e.thumbnail == found.thumbnail);
    assert e in b;
  }

  lemma LastReadTells(s: seq<Entry>, spec: SortSpec, changes: seq<FileChange>, name: string, k: nat)
    requires DistinctNames(s) && LastRead(changes, k, name)
    ensures changes[k].reading.Missing? ==> name !in NameSet(FlushAll(s, spec, changes))
    ensures changes[k].reading.Found? ==>
              HoldsFound(FlushAll(s, spec, changes[..k]), FlushAll(s, spec, changes), name, changes[k].reading.entry)
  {
    var before := FlushAll(s, spec, changes[..k]);
    var now := FlushAll(s, spec, changes[..k + 1]);
    FlushAllKeeps(s, spec, changes[..k], Touched(changes[..k]));
    FlushOneMore(s, spec, changes, k);
    FlushAllAfter(s, spec, changes, name, k);
    if changes[k].reading.Missing? {
      MissingIsForgotten(before, spec, changes[k]);
      assert forall e | e in FlushAll(s, spec, changes) && e.name == name :: e in now;
    } else if changes[k].reading.Found? {
      FoundIsHeld(before, spec, changes[k]);
      SameNamedHolds(before, now, FlushAll(s, spec, changes), name, changes[k].reading.entry);
    }
  }

  /** What a flush leaves of a name. No readable change: what there was. Last read as missing: nothing. Last read
      as a file: that file alone, with the thumbnail that was stored when the file is unmodified since. */
  ghost predicate Reflects(s: seq<Entry>, spec: SortSpec, changes: seq<FileChange>, now: seq<Entry>, name: string) {
    && ((forall c | c in changes && c.name == name :: c.reading.Unreadable?) ==> SameNamed(s, now, name))
    && forall k: nat | LastRead(changes, k, name) ::
         if changes[k].reading.Missing? then name !in NameSet(now)
         else HoldsFound(FlushAll(s, spec, changes[..k]), now, name, changes[k].reading.entry)
  }

  lemma FlushReflects(s: seq<Entry>, spec: SortSpec, changes: seq<FileChange>, name: string)
    requires DistinctNames(s)
    ensures Reflects(s, spec, changes, FlushAll(s, spec, changes), name)
  {
    if forall c | c in changes && c.name == name :: c.reading.Unreadable? { FlushAllElsewhere(s, spec, changes, name); }
    forall k: nat | LastRead(changes, k, name)
      ensures if changes[k].reading.Missing? then name !in NameSet(FlushAll(s, spec, changes))
              else HoldsFound(FlushAll(s, spec, changes[..k]), FlushAll(s, spec, changes), name,
                              changes[k].reading.entry)
    {
      LastReadTells(s, spec, changes, name, k);
    }
  }

  lemma ViewSameUntouched(a: seq<Entry>, b: seq<Entry>, p: Entry -> bool, touched: set<string>)
    requires SameUntouched(a, b, touched)
    ensures SameUntouched(Filter(p, a), Filter(p, b), touched)
  {
    FilterCommutes(Outside(touched), p, a);
    FilterCommutes(Outside(touched), p, b);
  }

  // ---------------------------------------------------------------- enrichment

  lemma ReplaceMiddle(a: seq<Entry>, x: Entry, b: seq<Entry>, e: Entry)
    requires x.name == e.name && forall k :: 0 <= k < |a| ==> a[k].name != e.name
    ensures Replace(a + [x] + b, e) == a + [e] + b
  {
    var l := a + [x] + b;
    assert l[|a|] == x;
    assert IndexOf(l, e.name) == |a|;
  }

  lemma FilterAround(p: Entry -> bool, a: seq<Entry>, x: Entry, b: seq<Entry>)
    ensures Filter(p, a + [x] + b) == Filter(p, a) + (if p(x) then [x] else []) + Filter(p, b)
  {
    assert Filter(p, a + [x]) == Filter(p, a) + (if p(x) then [x] else []) by {
      FilterConcat(p, a, [x]);
      FilterOne(p, x);
    }
    FilterConcat(p, a + [x], b);
  }

  /** Replacing an entry by one that is seen, or not seen, like it shows in the view as a replacement. */
  lemma FilterReplace(p: Entry -> bool, s: seq<Entry>, i: nat, e: Entry)
    requires DistinctNames(s) && i < |s| && e.name == s[i].name && p(e) == p(s[i])
    ensures Filter(p, s[i := e]) == if p(e) then Replace(Filter(p, s), e) else Filter(p, s)
  {
    var a, b := s[..i], s[i + 1..];
    FilterAround(p, a, s[i], b);
    FilterAround(p, a, e, b);
    assert s == a + [s[i]] + b && s[i := e] == a + [e] + b;
    if p(e) {
      var fa := Filter(p, a);
      var l := fa + [s[i]] + Filter(p, b);
      forall k | 0 <= k < |fa| ensures fa[k].name != e.name {
        FilterIn(p, a, fa[k]);
        var j :| 0 <= j < |a| && a[j] == fa[k];
      }
      ReplaceMiddle(fa, s[i], Filter(p, b), e);
    }
  }

  predicate Concerns(e: Entry, x: Entry) {
    e.name == x.name && e.mtimeMs == x.mtimeMs
  }

  /** Of the snapshots of a chunk that match the entry, the last one is at k. */
  predicate LastFor(changed: seq<Entry>, k: nat, x: Entry) {
    && k < |changed| && Concerns(changed[k], x)
    && forall j | k < j < |changed| :: !Concerns(changed[j], x)
  }

  /** For every entry the last snapshot that matches it is shown exactly when the entry is. */
  ghost predicate SnapshotsFit(entries: seq<Entry>, p: Entry -> bool, changed: seq<Entry>) {
    forall x, k: nat | x in entries && LastFor(changed, k, x) :: p(changed[k].(nameKey := x.nameKey)) == p(x)
  }

  /** What enrichment tells an attached client: the applied snapshots that are shown, as thumbnails or as changes,
      and nothing when there is none. */
  lemma EnrichmentTells(s: Server, changed: seq<Entry>, kind: Kind)
    requires s.subscribed && (kind.Changes? || kind.Thumbnails?)
    ensures var s', applied := ApplyChanged(s, changed, kind), ApplyAll(s.entries, changed).1;
            var seen := FilterView(applied, s.includeHidden, s.filters);
            if seen == [] then s'.topic == s.topic && s'.seqNo == s.seqNo
            else
              && Publishes(s, s', kind)
              && var b := s'.topic[|s.topic|];
                && b.added == [] && b.removed == []
                && b.thumbnails == (if kind.Thumbnails? then seen else [])
                && b.changed == (if kind.Thumbnails? then [] else seen)
  {
  }

  /** Enrichment keeps what identifies an entry, and its place. */
  lemma {:induction false} ApplyAllKeeps(entries: seq<Entry>, changed: seq<Entry>)
    requires DistinctNames(entries)
    ensures var now := ApplyAll(entries, changed).0;
            && |now| == |entries| && DistinctNames(now)
            && forall i :: 0 <= i < |now| ==> now[i].name == entries[i].name && now[i].mtimeMs == entries[i].mtimeMs
                                              && now[i].nameKey == entries[i].nameKey
  {
    if changed != [] { ApplyAllKeeps(entries, changed[..|changed| - 1]); }
  }

  lemma IndexOfThe(s: seq<Entry>, i: nat)
    requires DistinctNames(s) && i < |s|
    ensures IndexOf(s, s[i].name) == i
  {
  }

  /** The last snapshot that matches an entry takes its place. */
  lemma {:induction false} LastTakesPlace(entries: seq<Entry>, changed: seq<Entry>, i: nat, k: nat)
    requires DistinctNames(entries) && i < |entries| && LastFor(changed, k, entries[i])
    ensures |ApplyAll(entries, changed).0| == |entries|
    ensures ApplyAll(entries, changed).0[i] == changed[k].(nameKey := entries[i].nameKey)
  {
    var front := changed[..|changed| - 1];
    ApplyAllKeeps(entries, front);
    ApplyAllKeeps(entries, changed);
    IndexOfThe(ApplyAll(entries, front).0, i);
    if k < |front| {
      assert LastFor(front, k, entries[i]);
      LastTakesPlace(entries, front, i, k);
    }
  }

  /** Without one the entry is as it was. */
  lemma {:induction false} OthersStay(entries: seq<Entry>, changed: seq<Entry>, i: nat)
    requires DistinctNames(entries) && i < |entries| && forall e | e in changed :: !Concerns(e, entries[i])
    ensures |ApplyAll(entries, changed).0| == |entries| && ApplyAll(entries, changed).0[i] == entries[i]
  {
    if changed != [] {
      var front, e := changed[..|changed| - 1], changed[|changed| - 1];
      assert e in changed;
      ApplyAllKeeps(entries, front);
      IndexOfThe(ApplyAll(entries, front).0, i);
      OthersStay(entries, front, i);
    }
  }

  lemma {:induction false} LastOrNone(changed: seq<Entry>, x: Entry)
    ensures (exists k: nat :: LastFor(changed, k, x)) || forall e | e in changed :: !Concerns(e, x)
  {
    if changed != [] {
      var n := |changed| - 1;
      LastOrNone(changed[..n], x);
      if Concerns(changed[n], x) {
        assert LastFor(changed, n, x);
      } else if k: nat :| LastFor(changed[..n], k, x) {
        assert LastFor(changed, k, x);
      }
    }
  }

  ghost predicate ShownAlike(p: Entry -> bool, a: seq<Entry>, b: seq<Entry>) {
    |a| == |b| && forall i :: 0 <= i < |a| ==> p(a[i]) == p(b[i])
  }

  lemma FitMeansShownAlike(entries: seq<Entry>, p: Entry -> bool, changed: seq<Entry>)
    requires DistinctNames(entries)
    ensures SnapshotsFit(entries, p, changed) <==> ShownAlike(p, entries, ApplyAll(entries, changed).0)
  {
    var now := ApplyAll(entries, changed).0;
    ApplyAllKeeps(entries, changed);
    forall x, k: nat | x in entries && LastFor(changed, k, x)
      ensures exists i :: 0 <= i < |entries| && entries[i] == x && now[i] == changed[k].(nameKey := x.nameKey)
    {
      var i :| 0 <= i < |entries| && entries[i] == x;
      LastTakesPlace(entries, changed, i, k);
    }
    if SnapshotsFit(entries, p, changed) {
      forall i | 0 <= i < |entries| ensures p(entries[i]) == p(now[i]) {
        LastOrNone(changed, entries[i]);
        if k: nat :| LastFor(changed, k, entries[i]) { LastTakesPlace(entries, changed, i, k); }
        else { OthersStay(entries, changed, i); }
      }
    }
  }

  /** Entry by entry, what a client has that replays the snapshots which are shown: it has an entry exactly when
      it had it before, and then, if the watch shows the entry as well, the same one. */
  ghost predicate Replayed(entries: seq<Entry>, p: Entry -> bool, now: seq<Entry>, applied: seq<Entry>,
                           held: seq<Entry>) {
    && |held| == |entries| == |now| && DistinctNames(held)
    && (forall i :: 0 <= i < |held| ==> held[i].name == now[i].name)
    && ShownAlike(p, entries, held)
    && (forall i :: 0 <= i < |held| && p(held[i]) && p(now[i]) ==> held[i] == now[i])
    && Filter(p, held) == ReplaceAll(Filter(p, entries), Filter(p, applied))
  }

  lemma ReplaceAllMore(s: seq<Entry>, es: seq<Entry>, e: Entry)
    ensures ReplaceAll(s, es + [e]) == Replace(ReplaceAll(s, es), e)
  {
  }

  lemma ShownByName(p: Entry -> bool, s: seq<Entry>, i: nat)
    requires DistinctNames(s) && i < |s|
    ensures (exists j :: 0 <= j < |Filter(p, s)| && Filter(p, s)[j].name == s[i].name) <==> p(s[i])
  {
    FilterIn(p, s, s[i]);
    if p(s[i]) {
      var j :| 0 <= j < |Filter(p, s)| && Filter(p, s)[j] == s[i];
      assert Filter(p, s)[j].name == s[i].name;
    }
    forall j | 0 <= j < |Filter(p, s)| && Filter(p, s)[j].name == s[i].name ensures p(s[i]) {
      FilterIn(p, s, Filter(p, s)[j]);
      DistinctNamesOf(s, Filter(p, s)[j], s[i]);
    }
  }

  /** The client replaces the entry if it has one of that name. */
  lemma ShownMore(entries: seq<Entry>, p: Entry -> bool, now: seq<Entry>, applied: seq<Entry>, held: seq<Entry>,
                  i: nat, e: Entry)
    requires Replayed(entries, p, now, applied, held) && i < |now| && e.name == now[i].name && p(e) && p(held[i])
    ensures Replayed(entries, p, now[i := e], applied + [e], held[i := e])
  {
    FilterMore(p, applied, e);
    ReplaceAllMore(Filter(p, entries), Filter(p, applied), e);
    FilterReplace(p, held, i, e);
  }

  lemma AbsentMore(p: Entry -> bool, held: seq<Entry>, i: nat, e: Entry)
    requires DistinctNames(held) && i < |held| && e.name == held[i].name && !p(held[i])
    ensures Replace(Filter(p, held), e) == Filter(p, held)
  {
    ShownByName(p, held, i);
    assert IndexOf(Filter(p, held), e.name) == |Filter(p, held)|;
  }

  /** Otherwise it stays as it is. */
  lemma HiddenMore(entries: seq<Entry>, p: Entry -> bool, now: seq<Entry>, applied: seq<Entry>, held: seq<Entry>,
                   i: nat, e: Entry)
    requires Replayed(entries, p, now, applied, held) && i < |now| && e.name == now[i].name && !(p(e) && p(held[i]))
    ensures Replayed(entries, p, now[i := e], applied + [e], held)
  {
    FilterMore(p, applied, e);
    if p(e) {
      ReplaceAllMore(Filter(p, entries), Filter(p, applied), e);
      AbsentMore(p, held, i, e);
    }
  }

  lemma {:induction false} ClientReplays(entries: seq<Entry>, p: Entry -> bool, changed: seq<Entry>)
      returns (held: seq<Entry>)
    requires DistinctNames(entries)
    ensures Replayed(entries, p, ApplyAll(entries, changed).0, ApplyAll(entries, changed).1, held)
  {
    held := entries;
    if changed != [] {
      var front, e := changed[..|changed| - 1], changed[|changed| - 1];
      held := ClientReplays(entries, p, front);
      var (now, applied) := ApplyAll(entries, front);
      if Matches(now, e) {
        var i := IndexOf(now, e.name);
        if p(Keyed(now, e)) && p(held[i]) {
          ShownMore(entries, p, now, applied, held, i, Keyed(now, e));
          held := held[i := Keyed(now, e)];
        } else {
          HiddenMore(entries, p, now, applied, held, i, Keyed(now, e));
        }
      }
    }
  }

  lemma {:induction false} FilterShownAlike(p: Entry -> bool, a: seq<Entry>, b: seq<Entry>)
    requires ShownAlike(p, a, b) && forall i :: 0 <= i < |a| && p(a[i]) ==> a[i] == b[i]
    ensures Filter(p, a) == Filter(p, b)
  {
    if a != [] { FilterShownAlike(p, a[..|a| - 1], b[..|b| - 1]); }
  }

  /** Views in which one name is shown and not shown differ. */
  lemma ShownUnlikeDiffers(p: Entry -> bool, a: seq<Entry>, b: seq<Entry>, i: nat)
    requires DistinctNames(a) && DistinctNames(b) && i < |a| && i < |b| && a[i].name == b[i].name && p(a[i]) != p(b[i])
    ensures Filter(p, a) != Filter(p, b)
  {
    ShownByName(p, a, i);
    ShownByName(p, b, i);
  }

  lemma ReplayedExactly(entries: seq<Entry>, p: Entry -> bool, now: seq<Entry>, applied: seq<Entry>, held: seq<Entry>)
    requires Replayed(entries, p, now, applied, held) && DistinctNames(now)
    ensures Filter(p, now) == Filter(p, held) <==> ShownAlike(p, entries, now)
  {
    if ShownAlike(p, entries, now) {
      FilterShownAlike(p, held, now);
    } else {
      var i :| 0 <= i < |entries| && p(entries[i]) != p(now[i]);
      ShownUnlikeDiffers(p, held, now, i);
    }
  }

  /** Replaying the snapshots that are shown gives the new view exactly when, for every entry, the last
      snapshot that matches it is shown if and only if the entry is. */
  lemma ReplayExact(entries: seq<Entry>, p: Entry -> bool, changed: seq<Entry>)
    requires DistinctNames(entries)
    ensures var (now, applied) := ApplyAll(entries, changed);
            Filter(p, now) == ReplaceAll(Filter(p, entries), Filter(p, applied)) <==> SnapshotsFit(entries, p, changed)
  {
    var (now, applied) := ApplyAll(entries, changed);
    var held := ClientReplays(entries, p, changed);
    ApplyAllKeeps(entries, changed);
    FitMeansShownAlike(entries, p, changed);
    ReplayedExactly(entries, p, now, applied, held);
  }

  // ---------------------------------------------------------------- staying sorted

  lemma FlushOneSorted(s: seq<Entry>, spec: SortSpec, c: FileChange)
    requires DistinctNames(s) && Sorted(spec, s)
    ensures Sorted(spec, FlushOne(s, spec, c))
  {
    var i := IndexOf(s, c.name);
    match c.reading
    case Unreadable =>
    case Missing =>
      if i < |s| { DeleteKeepsSorted(spec, s, i); }
    case Found(entry) =>
      var e := entry.(name := c.name);
      if i < |s| {
        var e' := e.(thumbnail := CarryThumbnail(s[i], e));
        var rest := DeleteAt(s, i);
        assert DeleteAt(s[i := e'], i) == rest;
        DeleteKeepsSorted(spec, s, i);
        SearchIndexSplits(spec, rest, e');
        InsertKeepsSorted(spec, rest, SearchIndex(spec, rest, e'), e');
      } else {
        SearchIndexSplits(spec, s, e);
        InsertKeepsSorted(spec, s, SearchIndex(spec, s, e), e);
      }
  }

  lemma {:induction false} FlushAllSorted(s: seq<Entry>, spec: SortSpec, changes: seq<FileChange>)
    requires DistinctNames(s) && Sorted(spec, s)
    ensures Sorted(spec, FlushAll(s, spec, changes))
  {
    if changes != [] {
      var front := changes[..|changes| - 1];
      FlushAllSorted(s, spec, front);
      FlushAllKeeps(s, spec, front, Touched(front));
      FlushOneSorted(FlushAll(s, spec, front), spec, changes[|changes| - 1]);
    }
  }

  /** Every snapshot, when its turn comes, fits between the neighbours of the entry it overwrites. */
  ghost predicate AllFitInPlace(entries: seq<Entry>, spec: SortSpec, changed: seq<Entry>) {
    forall n :: 0 <= n < |changed| ==>
      var now := ApplyAll(entries, changed[..n]).0;
      Matches(now, changed[n]) ==> FitsAt(spec, now, IndexOf(now, changed[n].name), Keyed(now, changed[n]))
  }

  /** A snapshot that matches keeps a sorted listing sorted exactly when it fits where it is written: enrichment
      overwrites and does not sort again. */
  lemma OneSnapshotSortedExactly(entries: seq<Entry>, spec: SortSpec, e: Entry)
    requires Sorted(spec, entries) && Matches(entries, e)
    ensures Sorted(spec, ApplyAll(entries, [e]).0)
            <==> FitsAt(spec, entries, IndexOf(entries, e.name), Keyed(entries, e))
  {
    assert [e][..0] == [];
    OverwriteSortedExactly(spec, entries, IndexOf(entries, e.name), Keyed(entries, e));
  }

  lemma {:induction false} ApplyAllSorted(entries: seq<Entry>, spec: SortSpec, changed: seq<Entry>)
    requires Sorted(spec, entries) && AllFitInPlace(entries, spec, changed)
    ensures Sorted(spec, ApplyAll(entries, changed).0)
  {
    if changed != [] {
      var front, e := changed[..|changed| - 1], changed[|changed| - 1];
      assert AllFitInPlace(entries, spec, front) by {
        forall n | 0 <= n < |front| ensures var now := ApplyAll(entries, front[..n]).0;
              Matches(now, front[n]) ==> FitsAt(spec, now, IndexOf(now, front[n].name), Keyed(now, front[n]))
        {
          assert front[..n] == changed[..n] && front[n] == changed[n];
        }
      }
      ApplyAllSorted(entries, spec, front);
      var now := ApplyAll(entries, front).0;
      if Matches(now, e) { OverwriteSortedExactly(spec, now, IndexOf(now, e.name), Keyed(now, e)); }
    }
  }

  /** What enrichment leaves alone under a sort by anything but type. */
  predicate SameOrder(spec: SortSpec, a: Entry, b: Entry) {
    && a.name == b.name && a.nameKey == b.nameKey && a.isDir == b.isDir
    && a.size == b.size && a.mtimeMs == b.mtimeMs
    && (spec.key == SortType ==> a.mime == b.mime)
  }

  lemma SameOrderFits(spec: SortSpec, s: seq<Entry>, i: nat, e: Entry)
    requires Sorted(spec, s) && i < |s| && SameOrder(spec, s[i], e)
    ensures FitsAt(spec, s, i, e)
  {
    if i > 0 { assert Compare(spec, s[i - 1], e) == Compare(spec, s[i - 1], s[i]); }
    if i < |s| - 1 { assert Compare(spec, e, s[i + 1]) == Compare(spec, s[i], s[i + 1]); }
  }

  /** Under a sort by type a type found late is written where the old type stood. */
  lemma LateTypeIsOutOfOrder(a: Entry, b: Entry, late: string)
    requires a.name != b.name && a.isDir == b.isDir
    requires CompareBytes(a.mime, b.mime) < 0 && CompareBytes(late, b.mime) > 0
    ensures var spec := SortSpec(SortType, false, false);
            && Sorted(spec, [a, b])
            && ApplyAll([a, b], [a.(mime := late)]).0 == [a.(mime := late), b]
            && !Sorted(spec, [a.(mime := late), b])
  {
    var e := a.(mime := late);
    assert [e][..0] == [];
    assert ApplyAll([a, b], []).0 == [a, b];
    assert [a, b][0 := e] == [e, b];
    var after := [e, b];
    assert Compare(SortSpec(SortType, false, false), after[0], after[1]) > 0;
  }
}
