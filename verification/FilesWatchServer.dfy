/** The watch of files/watch.go as an object: its methods run under `mu`, update its fields in place, and
    do to them exactly what FilesWatch says. */
module FilesWatchServer {
  import opened Wrappers
  import opened FilesSort
  import opened FilesList
  import opened FilesDiff
  import opened FilesWatch

  method NamesOf(entries: seq<Entry>) returns (out: seq<string>)
    ensures out == Names(entries)
  {
    out := [];
    for i := 0 to |entries|
      invariant out == Names(entries[..i])
    {
      out := out + [entries[i].name];
    }
    assert entries[..|entries|] == entries;
  }

  method RunPasses(filters: seq<Pattern>, e: Entry) returns (ok: bool)
    ensures ok == Passes(filters, e)
  {
    if |filters| == 0 || e.isDir {
      return true;
    }
    for i := 0 to |filters|
      invariant forall k :: 0 <= k < i ==> !filters[k](e.name)
    {
      if filters[i](e.name) {
        return true;
      }
    }
    return false;
  }

  method RunFilterView(entries: seq<Entry>, includeHidden: bool, filters: seq<Pattern>) returns (out: seq<Entry>)
    ensures out == FilterView(entries, includeHidden, filters)
  {
    if includeHidden && |filters| == 0 {
      return entries;
    }
    out := [];
    for i := 0 to |entries|
      invariant out == Filter(Visible(includeHidden, filters), entries[..i])
    {
      assert entries[..i + 1][..i] == entries[..i];
      var passes := RunPasses(filters, entries[i]);
      if (entries[i].hidden && !includeHidden) || !passes {
        continue;
      }
      out := out + [entries[i]];
    }
    assert entries[..|entries|] == entries;
  }

  lemma PositionOf(view: seq<Entry>, i: nat)
    requires DistinctNames(view) && i < |view|
    ensures IndexOf(view, view[i].name) == i
  {
  }

  method IndexView(view: seq<Entry>) returns (at: map<string, nat>)
    requires DistinctNames(view)
    ensures forall n :: n in at <==> n in NameSet(view)
    ensures forall n :: n in at ==> at[n] == IndexOf(view, n)
  {
    at := map[];
    for i := 0 to |view|
      invariant forall n :: n in at <==> n in NameSet(view[..i])
      invariant forall n :: n in at ==> at[n] == IndexOf(view, n)
    {
      at := at[view[i].name := i];
      PositionOf(view, i);
      assert view[..i + 1] == view[..i] + [view[i]];
    }
    assert view[..|view|] == view;
  }

  lemma OneMoreName(before: seq<string>, i: nat, view: seq<Entry>)
    requires i < |before|
    ensures var name, known := before[i], before[i] in NameSet(view);
            && Vanished(before[..i + 1], view) == Vanished(before[..i], view) + (if known then [] else [name])
            && SetOf(before[..i + 1]) == SetOf(before[..i]) + {name}
            && KeptPositions(before[..i + 1], view)
            == KeptPositions(before[..i], view) + (if known then [IndexOf(view, name)] else [])
  {
    assert before[..i + 1][..i] == before[..i];
    assert before[..i + 1] == before[..i] + [before[i]];
  }

  lemma IncreasingMore(ps: seq<nat>, p: nat)
    ensures Increasing(ps + [p]) <==> Increasing(ps) && (ps == [] || p > ps[|ps| - 1])
  {
    if Increasing(ps + [p]) {
      forall i, j | 0 <= i < j < |ps| ensures ps[i] < ps[j] {
        assert (ps + [p])[i] < (ps + [p])[j];
      }
      if ps != [] { assert (ps + [p])[|ps| - 1] < (ps + [p])[|ps|]; }
    }
  }

  method CompareBefore(before: seq<string>, view: seq<Entry>, at: map<string, nat>)
    returns (removed: seq<string>, existed: set<string>, inOrder: bool)
    requires forall n :: n in at <==> n in NameSet(view)
    requires forall n :: n in at ==> at[n] == IndexOf(view, n)
    ensures removed == Vanished(before, view)
    ensures existed == SetOf(before) * NameSet(view)
    ensures inOrder == Increasing(KeptPositions(before, view))
  {
    removed, existed, inOrder := [], {}, true;
    var last: int := -1;
    for i := 0 to |before|
      invariant removed == Vanished(before[..i], view)
      invariant existed == SetOf(before[..i]) * NameSet(view)
      invariant var ps := KeptPositions(before[..i], view);
                inOrder == Increasing(ps) && last == if ps == [] then -1 else ps[|ps| - 1]
    {
      var name := before[i];
      ghost var ps := KeptPositions(before[..i], view);
      OneMoreName(before, i, view);
      if name !in at {
        removed := removed + [name];
        assert ps + [] == ps;
        continue;
      }
      existed := existed + {name};
      IncreasingMore(ps, at[name]);
      inOrder := inOrder && at[name] > last;
      last := at[name];
    }
    assert before[..|before|] == before;
  }

  method PlaceEntries(before: seq<string>, view: seq<Entry>, touched: set<string>,
                      vanished: seq<string>, existed: set<string>, inOrder: bool)
    returns (changes: Batch)
    requires existed == SetOf(before) * NameSet(view) && vanished == Vanished(before, view)
    requires inOrder == Increasing(KeptPositions(before, view))
    ensures changes == Diff(before, view, touched)
  {
    ghost var prior := SetOf(before);
    var added, addedAt, changed, removed := [], [], [], vanished;
    for i := 0 to |view|
      invariant added == Filter(Placed(prior, touched, inOrder), view[..i])
      invariant addedAt == Positions(Placed(prior, touched, inOrder), view[..i])
      invariant changed == Filter(Refreshed(prior, touched, inOrder), view[..i])
      invariant removed == vanished + Names(Filter(Moved(prior, touched, inOrder), view[..i]))
    {
      var e := view[i];
      assert view[..i + 1][..i] == view[..i];
      assert e.name in existed <==> e.name in prior by { assert e in view; }
      if e.name !in existed {
        added, addedAt := added + [e], addedAt + [i];
      } else if e.name !in touched {
        continue;
      } else if inOrder {
        changed := changed + [e];
      } else {
        removed := removed + [e.name];
        added, addedAt := added + [e], addedAt + [i];
      }
    }
    assert view[..|view|] == view;
    changes := Batch(FilesDiff.Changes, 0, added, addedAt, changed, removed, []);
  }

  /** diff: where the view's entries are, which names went and whether the others kept their order, then
      one pass over the view. */
  method RunDiff(before: seq<string>, view: seq<Entry>, touched: set<string>) returns (changes: Batch)
    requires DistinctNames(view)
    ensures changes == Diff(before, view, touched)
  {
    var at := IndexView(view);
    var removed, existed, inOrder := CompareBefore(before, view, at);
    changes := PlaceEntries(before, view, touched, removed, existed, inOrder);
  }

  class Watch {
    var entries: seq<Entry>
    var spec: SortSpec
    var includeHidden: bool
    var filters: seq<Pattern>
    var seqNo: nat
    var subscribed: bool
    var pending: seq<Batch>
    var dropped: bool
    var topic: seq<Batch>   // what svc.publish has sent

    /** The value this object stands for. */
    ghost function State(): Server
      reads this
    {
      Server(entries, spec, includeHidden, filters, seqNo, subscribed, pending, dropped, topic)
    }

    /** openWatch: the listing is sorted; the buffer is empty. */
    constructor (listing: seq<Entry>, opts: ListOptions, attachOnOpen: bool)
      ensures State() == Server(SortEntries(opts.sort, listing), opts.sort, opts.includeHidden, opts.filters,
                                0, attachOnOpen, [], false, [])
    {
      entries := SortEntries(opts.sort, listing);
      spec, includeHidden, filters := opts.sort, opts.includeHidden, opts.filters;
      seqNo, subscribed, pending, dropped, topic := 0, attachOnOpen, [], false, [];
    }

    method PublishLocked(payload: Batch)
      modifies this`seqNo, this`topic, this`pending, this`dropped
      ensures State() == Publish(old(State()), payload)
    {
      if payload.kind.Changes? && |payload.added| + |payload.changed| + |payload.removed| == 0 {
        return;
      }
      seqNo := seqNo + 1;
      var b := payload.(seqNo := seqNo);
      if subscribed {
        topic := topic + [b];
        return;
      }
      if |pending| >= PENDING_CAP {
        pending := [];
        dropped := true;
        return;
      }
      pending := pending + [b];
    }

    /** One iteration of flush: what became of one changed file. */
    method FlushChange(c: FileChange)
      modifies this`entries
      ensures entries == FlushOne(old(entries), spec, c)
    {
      var index := IndexOf(entries, c.name);
      match c.reading {
        case Missing =>
          if index < |entries| {
            entries := entries[..index] + entries[index + 1..];
          }
        case Unreadable =>
        case Found(found) =>
          var entry := found.(name := c.name);
          if index < |entries| {
            entry := entry.(thumbnail := CarryThumbnail(entries[index], entry));
            entries := entries[index := entry];
            entries := InsertSorted(entries[..index] + entries[index + 1..], entry, spec);
          } else {
            entries := InsertSorted(entries, entry, spec);
          }
      }
    }

    /** The loop of flush over the changed files. */
    method FlushChanges(changes: seq<FileChange>) returns (touched: set<string>)
      modifies this`entries
      ensures entries == FlushAll(old(entries), spec, changes) && touched == Touched(changes)
    {
      touched := {};
      ghost var was := entries;
      for i := 0 to |changes|
        invariant entries == FlushAll(was, spec, changes[..i])
        invariant touched == Touched(changes[..i])
      {
        var c := changes[i];
        FlushOneMore(was, spec, changes, i);
        touched := touched + {c.name};
        FlushChange(c);
      }
      assert changes[..|changes|] == changes;
    }

    method RunFlush(changes: seq<FileChange>)
      requires DistinctNames(entries)
      modifies this
      ensures State() == Flush(old(State()), changes) && DistinctNames(entries)
      ensures forall name :: Reflects(old(entries), spec, changes, entries, name)
    {
      var shown := RunFilterView(entries, includeHidden, filters);
      var before := NamesOf(shown);
      ghost var was := entries;
      var touched := FlushChanges(changes);
      assert State() == old(State()).(entries := entries);
      FlushAllKeeps(was, spec, changes, touched);
      forall name ensures Reflects(was, spec, changes, entries, name) { FlushReflects(was, spec, changes, name); }
      FilterViewFilters(entries, includeHidden, filters);
      FilterDistinct(Visible(includeHidden, filters), entries);
      var view := RunFilterView(entries, includeHidden, filters);
      var changed := RunDiff(before, view, touched);
      PublishLocked(changed);
    }

    method RunApplyChanged(changed: seq<Entry>, kind: Kind)
      modifies this
      ensures State() == if changed == [] then old(State()) else ApplyChanged(old(State()), changed, kind)
    {
      if |changed| == 0 {
        return;
      }
      var applied: seq<Entry> := [];
      ghost var was := entries;
      for i := 0 to |changed|
        invariant (entries, applied) == ApplyAll(was, changed[..i])
        invariant State() == old(State()).(entries := entries)
      {
        assert changed[..i + 1][..i] == changed[..i];
        var e := changed[i];
        var index := IndexOf(entries, e.name);
        if index == |entries| || entries[index].mtimeMs != e.mtimeMs {
          continue;
        }
        e := e.(nameKey := entries[index].nameKey);
        entries := entries[index := e];
        applied := applied + [e];
      }
      assert changed[..|changed|] == changed;
      var seen := RunFilterView(applied, includeHidden, filters);
      if |seen| == 0 {
        return;
      }
      if kind.Thumbnails? {
        PublishLocked(EmptyBatch(kind).(thumbnails := seen));
      } else {
        PublishLocked(EmptyBatch(kind).(changed := seen));
      }
    }

    method RunResync(listing: seq<Entry>)
      modifies this
      ensures State() == ResyncFrom(old(State()), listing)
    {
      entries := SortEntries(spec, listing);
      PublishLocked(EmptyBatch(Resync));
    }

    method RunAttach()
      modifies this
      ensures State() == Attach(old(State()))
    {
      subscribed := true;
      var buffered := pending;
      pending := [];
      if dropped {
        dropped := false;
        seqNo := seqNo + 1;
        topic := topic + [EmptyBatch(Resync).(seqNo := seqNo)];
        return;
      }
      for i := 0 to |buffered|
        invariant State() == old(State()).(subscribed := true, pending := [], topic := old(topic) + buffered[..i])
      {
        topic := topic + [buffered[i]];
      }
      assert buffered[..|buffered|] == buffered;
    }

    method RunPage(opts: ListOptions) returns (page: Option<Page>, at: nat)
      modifies this`spec, this`entries, this`includeHidden, this`filters
      ensures State() == Configure(old(State()), opts)
      ensures page == PageOf(View(State()), opts.cursor, opts.limit) && at == seqNo
    {
      if opts.sort != spec {
        spec := opts.sort;
        entries := SortEntries(spec, entries);
      }
      includeHidden := opts.includeHidden;
      filters := opts.filters;
      assert State() == Configure(old(State()), opts);
      var view := RunFilterView(entries, includeHidden, filters);
      page := PageOf(view, opts.cursor, opts.limit);
      at := seqNo;
    }
  }
}
