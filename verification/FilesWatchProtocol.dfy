/** A directory watch and its client: the client asks for pages until it has the whole view as of one batch
    number, keeps the batches that come in meanwhile, skips those its pages already cover, replays the later
    ones, and pages again after a resync. It then holds exactly the server's view. */
module FilesWatchProtocol {
  import opened Wrappers
  import opened FilesSort
  import opened FilesList
  import opened FilesDiff
  import opened FilesWatch

  // ---------------------------------------------------------------- the client

  datatype Client =
    | Waiting                                  // no list yet, or told to page again
    | Asked(kept: seq<Batch>, had: seq<Entry>, since: Option<nat>)
                                               // a page is on its way; what came in, and the pages so far
    | Gathering(kept: seq<Batch>, had: seq<Entry>, upTo: nat, cursor: string)
                                               // the pages so far, all as of number upTo; more are to be asked for
    | Holding(list: seq<Entry>, upTo: nat)     // the view as of batch number upTo
    | Closed                                   // the directory is gone
    | Lost                                     // a batch could not be replayed

  function Receive(c: Client, b: Batch): Client {
    match c
    case Holding(list, upTo) =>
      if b.seqNo <= upTo then c
      else (match b.kind
            case Resync => Waiting
            case Gone => Closed
            case _ =>
              var r := Applied(list, b);
              if r.Some? then Holding(r.value, b.seqNo) else Lost)
    case Asked(kept, had, since) => Asked(kept + [b], had, since)
    case Gathering(kept, had, upTo, cursor) =>
      if b.kind.Gone? && b.seqNo > upTo then Closed else Gathering(kept + [b], had, upTo, cursor)
    case Waiting => if b.kind.Gone? then Closed else Waiting
    case _ => c
  }

  function ReceiveAll(c: Client, bs: seq<Batch>): Client {
    if bs == [] then c else Receive(ReceiveAll(c, bs[..|bs| - 1]), bs[|bs| - 1])
  }

  // ---------------------------------------------------------------- the system

  /** A page on its way to the client, and the number it is good for. */
  datatype Reply = Reply(page: Option<Page>, seqNo: nat)

  /** `delivered` counts the published batches that have reached the client. */
  datatype System = System(server: Server, client: Client, delivered: nat, reply: Option<Reply>)

  datatype Event =
    | Changed(changes: seq<FileChange>)             // flush of coalesced notifications
    | Enriched(changed: seq<Entry>, kind: Kind)     // applyChanged
    | Overflowed(listing: seq<Entry>)               // resync
    | Vanish                                        // publishGone
    | Subscribe                                     // attach
    | First(opts: ListOptions)                      // page; an earlier reply still on its way is ignored
    | More(limit: Int)                              // page again, from the cursor of the last page
    | Arrive                                        // the reply reaches the client
    | Deliver                                       // the client receives the next batch

  /** Enrichment is shown like what it overwrites, and no page request panics: the first page of a list never
      does, and the next one does exactly when its limit overflows. */
  ghost predicate Enabled(sys: System, ev: Event) {
    match ev
    case Enriched(changed, kind) =>
      (kind.Changes? || kind.Thumbnails?) &&
      SnapshotsFit(sys.server.entries, Visible(sys.server.includeHidden, sys.server.filters), changed)
    case Overflowed(listing) => DistinctNames(listing)
    case First(_) => !sys.client.Closed?
    case More(limit) =>
      && sys.client.Gathering? && |sys.server.entries| <= MAX_INT
      && !Overflows(View(sys.server), sys.client.cursor, limit)
    case Arrive => sys.reply.Some?
    case Deliver => sys.delivered < |sys.server.topic|
    case _ => true
  }

  function Answer(s: Server, cursor: string, limit: Int): Reply {
    Reply(PageOf(View(s), cursor, limit), s.seqNo)
  }

  /** The options of the last request, from a cursor. */
  function AsBefore(s: Server, limit: Int, cursor: string): ListOptions {
    ListOptions(s.includeHidden, s.filters, s.spec, limit, cursor)
  }

  /** What a page makes of a client: pages of different numbers do not make a list. */
  function Taken(had: seq<Entry>, since: Option<nat>, r: Reply): Client {
    if r.page == None || (since.Some? && since.value != r.seqNo) then Waiting
    else
      var list := had + r.page.value.entries;
      if r.page.value.cursor == "" then Holding(list, r.seqNo) else Gathering([], list, r.seqNo, r.page.value.cursor)
  }

  /** The client once its page is in: what it kept is received after the page. */
  function Expected(client: Client, reply: Option<Reply>): Client {
    if client.Asked? && reply.Some? then ReceiveAll(Taken(client.had, client.since, reply.value), client.kept)
    else client
  }

  function Next(sys: System, ev: Event): System {
    match ev
    case Changed(changes) => sys.(server := Flush(sys.server, changes))
    case Enriched(changed, kind) => sys.(server := ApplyChanged(sys.server, changed, kind))
    case Overflowed(listing) => sys.(server := ResyncFrom(sys.server, listing))
    case Vanish => sys.(server := PublishGone(sys.server))
    case Subscribe => sys.(server := Attach(sys.server))
    case First(opts) =>
      var s' := Configure(sys.server, opts);
      sys.(server := s', client := Asked([], [], None), reply := Some(Answer(s', "", opts.limit)))
    case More(limit) =>
      if sys.client.Gathering? then
        var s' := Configure(sys.server, AsBefore(sys.server, limit, sys.client.cursor));
        sys.(server := s', client := Asked(sys.client.kept, sys.client.had, Some(sys.client.upTo)),
             reply := Some(Answer(s', sys.client.cursor, limit)))
      else sys
    case Arrive => sys.(client := Expected(sys.client, sys.reply), reply := None)
    case Deliver =>
      if sys.delivered < |sys.server.topic|
      then sys.(client := Receive(sys.client, sys.server.topic[sys.delivered]), delivered := sys.delivered + 1)
      else sys
  }

  /** openWatch: a sorted listing; hosts without per-topic subscribe are attached from the start. */
  ghost predicate Opened(sys: System) {
    var s := sys.server;
    && DistinctNames(s.entries) && Sorted(s.spec, s.entries)
    && s.seqNo == 0 && s.pending == [] && !s.dropped && s.topic == []
    && sys.client == Waiting && sys.delivered == 0 && sys.reply == None
  }

  ghost predicate Run(run: seq<System>, events: seq<Event>) {
    && |run| == |events| + 1 && Opened(run[0])
    && forall i :: 0 <= i < |events| ==> Enabled(run[i], events[i]) && run[i + 1] == Next(run[i], events[i])
  }

  // ---------------------------------------------------------------- numbering

  ghost predicate NumberedUpTo(bs: seq<Batch>, last: nat) {
    |bs| <= last && forall i :: 0 <= i < |bs| ==> bs[i].seqNo == last - |bs| + 1 + i
  }

  /** Batch numbers are contiguous; the buffer holds the latest ones and is bounded. */
  ghost predicate Numbering(s: Server) {
    && NumberedUpTo(s.pending, s.seqNo) && |s.pending| <= PENDING_CAP
    && NumberedUpTo(s.topic, if s.subscribed then s.seqNo else |s.topic|)
    && (if s.subscribed then s.pending == [] && !s.dropped else s.topic == [])
    && (!s.subscribed && !s.dropped ==> |s.pending| == s.seqNo)
    && (s.dropped ==> s.seqNo > PENDING_CAP)
    && (s.subscribed && s.topic == [] ==> s.seqNo == 0)
    && (s.topic != [] ==> s.topic[0].seqNo == 1 || s.topic[0].kind.Resync?)
  }

  lemma PublishNumbers(s: Server, b: Batch)
    requires Numbering(s)
    ensures Numbering(Publish(s, b))
  {
  }

  lemma AttachNumbers(s: Server)
    requires Numbering(s)
    ensures Numbering(Attach(s))
  {
  }

  // ---------------------------------------------------------------- what is under way

  /** The batches the client has still to receive. */
  function UnderWay(sys: System): seq<Batch>
    requires sys.delivered <= |sys.server.topic|
  {
    sys.server.topic[sys.delivered..] + sys.server.pending
  }

  /** A client that keeps receiving will hold the view, or will be told to page again. */
  ghost predicate OnCourse(c: Client, view: seq<Entry>, seqNo: nat) {
    match c
    case Holding(list, upTo) => list == view && upTo <= seqNo
    case Lost => false
    case _ => true
  }

  /** What the client will be once its page, if it asked for one, is in. */
  function Expecting(sys: System): Client {
    Expected(sys.client, sys.reply)
  }

  /** While no batch is published, the pages so far are the beginning of the view, and the cursor goes on. */
  predicate GathersWell(c: Client, view: seq<Entry>, seqNo: nat)
    requires c.Gathering?
  {
    && c.upTo <= seqNo
    && (forall b | b in c.kept :: b.seqNo <= seqNo)
    && (c.upTo == seqNo ==>
          0 < |c.had| && c.had <= view && c.cursor == CursorAfter(|c.had| - 1, c.had[|c.had| - 1].name))
  }

  /** A client that is not waiting for a page, and what holds of it by itself. */
  predicate Fine(c: Client, view: seq<Entry>, seqNo: nat) {
    && !c.Lost? && !c.Asked?
    && (c.Holding? ==> c.upTo <= seqNo)
    && (c.Gathering? ==> GathersWell(c, view, seqNo))
  }

  ghost predicate Synced(sys: System) {
    && DistinctNames(sys.server.entries)
    && Numbering(sys.server)
    && sys.delivered <= |sys.server.topic|
    && (sys.client.Asked? <==> sys.reply.Some?)
    && Fine(Expecting(sys), View(sys.server), sys.server.seqNo)
    && (!sys.server.dropped ==> OnCourse(ReceiveAll(Expecting(sys), UnderWay(sys)), View(sys.server), sys.server.seqNo))
  }

  lemma ReceiveMore(c: Client, bs: seq<Batch>, b: Batch)
    ensures ReceiveAll(c, bs + [b]) == Receive(ReceiveAll(c, bs), b)
  {
    assert (bs + [b])[..|bs|] == bs;
  }

  lemma {:induction false} ReceiveFirst(c: Client, b: Batch, bs: seq<Batch>)
    ensures ReceiveAll(c, [b] + bs) == ReceiveAll(Receive(c, b), bs)
  {
    if bs == [] {
      assert [b] + bs == [] + [b];
      ReceiveMore(c, [], b);
    } else {
      var front, last := bs[..|bs| - 1], bs[|bs| - 1];
      ReceiveFirst(c, b, front);
      assert [b] + bs == ([b] + front) + [last];
      ReceiveMore(c, [b] + front, last);
      assert bs == front + [last];
    }
  }

  /** Batches no newer than its page leave a client alone. */
  lemma {:induction false} ReceiveOld(c: Client, bs: seq<Batch>)
    requires c.Holding? && forall b :: b in bs ==> b.seqNo <= c.upTo
    ensures ReceiveAll(c, bs) == c
  {
    if bs != [] {
      ReceiveOld(c, bs[..|bs| - 1]);
    }
  }

  lemma {:induction false} ReceiveWaiting(c: Client, bs: seq<Batch>)
    requires !c.Holding? && !c.Asked?
    ensures !ReceiveAll(c, bs).Holding? && !ReceiveAll(c, bs).Asked?
    ensures ReceiveAll(c, bs).Lost? <==> c.Lost?
    ensures !c.Gathering? ==> !ReceiveAll(c, bs).Gathering?
  {
    if bs != [] {
      ReceiveWaiting(c, bs[..|bs| - 1]);
    }
  }

  lemma {:induction false} ReceiveGathering(c: Client, bs: seq<Batch>)
    requires c.Gathering? && forall b | b in bs :: b.seqNo <= c.upTo
    ensures ReceiveAll(c, bs) == c.(kept := c.kept + bs)
  {
    if bs == [] {
      assert c.kept + bs == c.kept;
    } else {
      var front, last := bs[..|bs| - 1], bs[|bs| - 1];
      ReceiveGathering(c, front);
      assert c.kept + bs == c.kept + front + [last];
    }
  }

  /** A newly numbered batch that turns the old view into the new one keeps the client on course. */
  lemma PublishOnCourse(s: Server, c: Client, view: seq<Entry>, b: Batch, view': seq<Entry>)
    requires OnCourse(c, view, s.seqNo)
    requires b.kind.Changes? || b.kind.Thumbnails? ==> Applied(view, b) == Some(view')
    ensures OnCourse(Receive(c, b.(seqNo := s.seqNo + 1)), view', s.seqNo + 1)
  {
    var n := b.(seqNo := s.seqNo + 1);
    assert Applied(view, n) == Applied(view, b);
  }

  predicate Silent(b: Batch) {
    b.kind.Changes? && |b.added| + |b.changed| + |b.removed| == 0
  }

  lemma PublishUnderWay(sys: System, b: Batch)
    requires Numbering(sys.server) && sys.delivered <= |sys.server.topic|
    ensures var s, sys' := sys.server, sys.(server := Publish(sys.server, b));
            && sys'.delivered <= |sys'.server.topic|
            && sys'.server.entries == s.entries && View(sys'.server) == View(s)
            && s.seqNo <= sys'.server.seqNo
            && (Silent(b) ==> sys' == sys)
            && (!Silent(b) && !sys'.server.dropped ==>
                  && !s.dropped && sys'.server.seqNo == s.seqNo + 1
                  && UnderWay(sys') == UnderWay(sys) + [b.(seqNo := s.seqNo + 1)])
            && (s.dropped ==> sys'.server.dropped)
  {
    var sys' := sys.(server := Publish(sys.server, b));
    if !Silent(b) && !sys'.server.dropped {
      assert UnderWay(sys') == UnderWay(sys) + [b.(seqNo := sys.server.seqNo + 1)];
    }
  }

  lemma SilentKeepsView(view: seq<Entry>, b: Batch, view': seq<Entry>)
    requires Silent(b) && b.thumbnails == [] && Applied(view, b) == Some(view')
    ensures view' == view
  {
  }

  /** A batch that is sent or buffered keeps the client on course. */
  lemma SentSyncs(sys: System, view: seq<Entry>, b: Batch)
    requires Numbering(sys.server) && sys.delivered <= |sys.server.topic|
    requires !Silent(b) && !Publish(sys.server, b).dropped
    requires !sys.server.dropped ==> OnCourse(ReceiveAll(Expecting(sys), UnderWay(sys)), view, sys.server.seqNo)
    requires b.kind.Changes? || b.kind.Thumbnails? ==> Applied(view, b) == Some(View(sys.server))
    ensures var sys' := sys.(server := Publish(sys.server, b));
            && sys'.delivered <= |sys'.server.topic|
            && OnCourse(ReceiveAll(Expecting(sys'), UnderWay(sys')), View(sys'.server), sys'.server.seqNo)
  {
    PublishUnderWay(sys, b);
    PublishOnCourse(sys.server, ReceiveAll(Expecting(sys), UnderWay(sys)), view, b, View(sys.server));
    ReceiveMore(Expecting(sys), UnderWay(sys), b.(seqNo := sys.server.seqNo + 1));
  }

  /** Publishing keeps the client on course, whether the batch is sent, buffered, or left out because it
      is empty; a dropped buffer is made good by attach. */
  lemma PublishSyncs(sys: System, view: seq<Entry>, b: Batch)
    requires DistinctNames(sys.server.entries) && Numbering(sys.server) && sys.delivered <= |sys.server.topic|
    requires (sys.client.Asked? <==> sys.reply.Some?) && Fine(Expecting(sys), view, sys.server.seqNo)
    requires !sys.server.dropped ==> OnCourse(ReceiveAll(Expecting(sys), UnderWay(sys)), view, sys.server.seqNo)
    requires b.kind.Changes? || b.kind.Thumbnails? ==> Applied(view, b) == Some(View(sys.server))
    requires b.kind.Changes? ==> b.thumbnails == []
    ensures Synced(sys.(server := Publish(sys.server, b)))
  {
    PublishNumbers(sys.server, b);
    PublishUnderWay(sys, b);
    if Silent(b) {
      SilentKeepsView(view, b, View(sys.server));
    } else if !Publish(sys.server, b).dropped {
      SentSyncs(sys, view, b);
    }
  }

  // ---------------------------------------------------------------- the events

  lemma ChangedSyncs(sys: System, changes: seq<FileChange>)
    requires Synced(sys)
    ensures Synced(Next(sys, Changed(changes)))
  {
    var s := sys.server;
    var s' := s.(entries := FlushAll(s.entries, s.spec, changes));
    var p := Visible(s.includeHidden, s.filters);
    FlushAllKeeps(s.entries, s.spec, changes, Touched(changes));
    FilterViewFilters(s.entries, s.includeHidden, s.filters);
    FilterViewFilters(s'.entries, s.includeHidden, s.filters);
    ViewSameUntouched(s.entries, s'.entries, p, Touched(changes));
    FilterDistinct(p, s.entries);
    FilterDistinct(p, s'.entries);
    DiffReplays(View(s), View(s'), Touched(changes));
    var sys1 := sys.(server := s');
    assert UnderWay(sys1) == UnderWay(sys);
    PublishSyncs(sys1, View(s), Diff(Names(View(s)), View(s'), Touched(changes)));
  }

  lemma ReplaceOnly(view: seq<Entry>, b: Batch)
    requires b.removed == [] && b.added == [] && b.addedAt == []
    ensures Applied(view, b) == Some(ReplaceAll(ReplaceAll(view, b.changed), b.thumbnails))
  {
  }

  /** Enrichment shows in the view as replacements. */
  lemma EnrichedView(s: Server, changed: seq<Entry>)
    requires DistinctNames(s.entries) && SnapshotsFit(s.entries, Visible(s.includeHidden, s.filters), changed)
    ensures var (now, applied) := ApplyAll(s.entries, changed);
            && DistinctNames(now)
            && View(s.(entries := now)) == ReplaceAll(View(s), FilterView(applied, s.includeHidden, s.filters))
  {
    var (now, applied) := ApplyAll(s.entries, changed);
    ReplayExact(s.entries, Visible(s.includeHidden, s.filters), changed);
    ApplyAllKeeps(s.entries, changed);
    FilterViewFilters(s.entries, s.includeHidden, s.filters);
    FilterViewFilters(now, s.includeHidden, s.filters);
    FilterViewFilters(applied, s.includeHidden, s.filters);
  }

  /** Snapshots are sent as replacements, if any of them is shown. */
  lemma SeenSyncs(sys: System, view: seq<Entry>, seen: seq<Entry>, kind: Kind)
    requires DistinctNames(sys.server.entries) && Numbering(sys.server) && sys.delivered <= |sys.server.topic|
    requires (sys.client.Asked? <==> sys.reply.Some?) && Fine(Expecting(sys), view, sys.server.seqNo)
    requires !sys.server.dropped ==> OnCourse(ReceiveAll(Expecting(sys), UnderWay(sys)), view, sys.server.seqNo)
    requires View(sys.server) == ReplaceAll(view, seen) && (kind.Changes? || kind.Thumbnails?)
    ensures var s := sys.server;
            Synced(sys.(server := if seen == [] then s
                                  else if kind.Thumbnails? then Publish(s, EmptyBatch(kind).(thumbnails := seen))
                                  else Publish(s, EmptyBatch(kind).(changed := seen))))
  {
    if seen == [] {
      PublishSyncs(sys, view, EmptyBatch(Changes));
    } else if kind.Thumbnails? {
      ReplaceOnly(view, EmptyBatch(kind).(thumbnails := seen));
      PublishSyncs(sys, view, EmptyBatch(kind).(thumbnails := seen));
    } else {
      ReplaceOnly(view, EmptyBatch(kind).(changed := seen));
      PublishSyncs(sys, view, EmptyBatch(kind).(changed := seen));
    }
  }

  lemma EnrichedSyncs(sys: System, changed: seq<Entry>, kind: Kind)
    requires Synced(sys) && Enabled(sys, Enriched(changed, kind))
    ensures Synced(Next(sys, Enriched(changed, kind)))
  {
    var s := sys.server;
    var seen := FilterView(ApplyAll(s.entries, changed).1, s.includeHidden, s.filters);
    EnrichedView(s, changed);
    var sys1 := sys.(server := s.(entries := ApplyAll(s.entries, changed).0));
    assert UnderWay(sys1) == UnderWay(sys);
    SeenSyncs(sys1, View(s), seen, kind);
  }

  lemma OverflowedSyncs(sys: System, listing: seq<Entry>)
    requires Synced(sys) && DistinctNames(listing)
    ensures Synced(Next(sys, Overflowed(listing)))
  {
    var s := sys.server;
    var s' := s.(entries := SortEntries(s.spec, listing));
    SortEntriesSorts(s.spec, listing);
    MultisetDistinct(listing, s'.entries);
    var sys1 := sys.(server := s');
    assert UnderWay(sys1) == UnderWay(sys);
    PublishSyncs(sys1, View(s), EmptyBatch(Resync));
  }

  lemma ReceiveOne(c: Client, b: Batch)
    ensures ReceiveAll(c, [b]) == Receive(c, b)
  {
    assert [b] == [] + [b];
    ReceiveMore(c, [], b);
  }

  /** A new resync tells any client to page again. */
  lemma ResyncEnds(c: Client, b: Batch, view: seq<Entry>, seqNo: nat)
    requires b.kind.Resync? && !c.Lost? && (c.Holding? ==> c.upTo < b.seqNo)
    ensures OnCourse(ReceiveAll(c, [b]), view, seqNo)
  {
    ReceiveOne(c, b);
  }

  /** Attaching after the buffer was dropped tells the client to page again. */
  lemma DroppedSubscribes(sys: System)
    requires Synced(sys) && sys.server.dropped
    ensures UnderWay(Next(sys, Subscribe)) == [EmptyBatch(Resync).(seqNo := sys.server.seqNo + 1)]
  {
    assert sys.server.topic == [];
  }

  /** Otherwise what was buffered is what is now on its way. */
  lemma BufferSubscribes(sys: System)
    requires Synced(sys) && !sys.server.dropped
    ensures UnderWay(Next(sys, Subscribe)) == UnderWay(sys)
    ensures sys.delivered <= |Attach(sys.server).topic|
  {
  }

  lemma SubscribeSyncs(sys: System)
    requires Synced(sys)
    ensures Synced(Next(sys, Subscribe))
  {
    AttachNumbers(sys.server);
    if sys.server.dropped {
      DroppedSubscribes(sys);
      ResyncEnds(Expecting(sys), EmptyBatch(Resync).(seqNo := sys.server.seqNo + 1), View(Attach(sys.server)),
                 sys.server.seqNo + 1);
    } else {
      BufferSubscribes(sys);
    }
  }

  lemma UnderWayIsOld(sys: System, b: Batch)
    requires Synced(sys) && b in UnderWay(sys)
    ensures b.seqNo <= sys.server.seqNo
  {
    var i :| 0 <= i < |UnderWay(sys)| && UnderWay(sys)[i] == b;
  }

  lemma CursorIsNotEmpty(i: nat, name: string)
    ensures CursorAfter(i, name) != ""
  {
  }

  lemma {:induction false} FilterShortens(p: Entry -> bool, s: seq<Entry>)
    ensures |Filter(p, s)| <= |s|
  {
    if s != [] { FilterShortens(p, s[..|s| - 1]); }
  }

  lemma ViewIsPart(s: Server)
    requires DistinctNames(s.entries)
    ensures |View(s)| <= |s.entries| && DistinctNames(View(s))
  {
    FilterViewFilters(s.entries, s.includeHidden, s.filters);
    FilterShortens(Visible(s.includeHidden, s.filters), s.entries);
    FilterDistinct(Visible(s.includeHidden, s.filters), s.entries);
  }

  /** The pages so far and a cursor that goes on from them. */
  predicate GoesOn(view: seq<Entry>, had: seq<Entry>, cursor: string) {
    && had <= view
    && if had == [] then cursor == "" else cursor == CursorAfter(|had| - 1, had[|had| - 1].name)
  }

  lemma CursorGoesOn(view: seq<Entry>, had: seq<Entry>, cursor: string)
    requires DistinctNames(view) && |view| <= MAX_INT && GoesOn(view, had, cursor)
    ensures ResumeAt(view, cursor) == |had|
  {
    if had != [] { CursorResumes(view, |had| - 1, |had| - 1); }
  }

  lemma StretchGoesOn(view: seq<Entry>, had: seq<Entry>, page: Page)
    requires had <= view && Stretch(view, |had|, page)
    ensures had + page.entries <= view
    ensures if page.cursor == "" then had + page.entries == view
            else had + page.entries != [] && GoesOn(view, had + page.entries, page.cursor)
  {
    var end := |had| + |page.entries|;
    assert had + page.entries == view[..end];
    if end < |view| { CursorIsNotEmpty(end - 1, view[end - 1].name); }
  }

  /** The next page makes the whole view of the pages so far, or a longer beginning of it. */
  lemma PageGoesOn(s: Server, had: seq<Entry>, since: Option<nat>, cursor: string, limit: Int)
    requires GoesOn(View(s), had, cursor) && ResumeAt(View(s), cursor) == |had| <= MAX_INT
    requires !Overflows(View(s), cursor, limit)
    requires since.Some? ==> since.value == s.seqNo
    ensures var c := Taken(had, since, Answer(s, cursor, limit));
            c == Holding(View(s), s.seqNo)
            || (c.Gathering? && c.kept == [] && c.upTo == s.seqNo && GathersWell(c, View(s), s.seqNo))
  {
    var view := View(s);
    PageStretch(view, cursor, limit, |had|);
    StretchGoesOn(view, had, PageOf(view, cursor, limit).value);
  }

  lemma RequestedNumbers(sys: System, opts: ListOptions)
    requires Synced(sys)
    ensures Numbering(Configure(sys.server, opts)) && DistinctNames(Configure(sys.server, opts).entries)
  {
    SortEntriesSorts(opts.sort, sys.server.entries);
    MultisetDistinct(sys.server.entries, SortEntries(opts.sort, sys.server.entries));
  }

  /** A client whose page is as new as the server is on course whatever it kept. */
  lemma NewPageSyncs(c: Client, kept: seq<Batch>, bs: seq<Batch>, view: seq<Entry>, seqNo: nat)
    requires forall b | b in kept || b in bs :: b.seqNo <= seqNo
    requires c == Waiting || c == Holding(view, seqNo)
             || (c.Gathering? && c.kept == [] && c.upTo == seqNo && GathersWell(c, view, seqNo))
    ensures Fine(ReceiveAll(c, kept), view, seqNo)
    ensures OnCourse(ReceiveAll(ReceiveAll(c, kept), bs), view, seqNo)
  {
    if c.Holding? {
      ReceiveOld(c, kept);
      ReceiveOld(c, bs);
    } else {
      ReceiveWaiting(c, kept);
      if c.Gathering? { ReceiveGathering(c, kept); }
      ReceiveWaiting(ReceiveAll(c, kept), bs);
    }
  }

  lemma FirstSyncs(sys: System, opts: ListOptions)
    requires Synced(sys)
    ensures Synced(Next(sys, First(opts)))
  {
    var s' := Configure(sys.server, opts);
    var sys' := Next(sys, First(opts));
    RequestedNumbers(sys, opts);
    assert UnderWay(sys') == UnderWay(sys);
    forall b | b in UnderWay(sys) ensures b.seqNo <= s'.seqNo { UnderWayIsOld(sys, b); }
    PageGoesOn(s', [], None, "", opts.limit);
    NewPageSyncs(Taken([], None, Answer(s', "", opts.limit)), [], UnderWay(sys), View(s'), s'.seqNo);
  }

  lemma MoreSyncs(sys: System, limit: Int)
    requires Synced(sys) && Enabled(sys, More(limit))
    ensures Synced(Next(sys, More(limit)))
  {
    var s, c := sys.server, sys.client;
    var sys' := Next(sys, More(limit));
    assert Configure(s, AsBefore(s, limit, c.cursor)) == s;
    assert UnderWay(sys') == UnderWay(sys);
    forall b | b in UnderWay(sys) ensures b.seqNo <= s.seqNo { UnderWayIsOld(sys, b); }
    if c.upTo == s.seqNo {
      ViewIsPart(s);
      CursorGoesOn(View(s), c.had, c.cursor);
      PageGoesOn(s, c.had, Some(c.upTo), c.cursor, limit);
    }
    NewPageSyncs(Taken(c.had, Some(c.upTo), Answer(s, c.cursor, limit)), c.kept, UnderWay(sys), View(s), s.seqNo);
  }

  /** The page changes nothing of what the client will be. */
  lemma ArriveSyncs(sys: System)
    requires Synced(sys) && sys.reply.Some?
    ensures Synced(Next(sys, Arrive))
  {
    assert Expecting(Next(sys, Arrive)) == Expecting(sys);
    assert UnderWay(Next(sys, Arrive)) == UnderWay(sys);
  }

  /** Nor does it matter whether a batch comes before the page or after it. */
  lemma ExpectedReceives(c: Client, reply: Option<Reply>, b: Batch)
    requires c.Asked? <==> reply.Some?
    ensures Expected(Receive(c, b), reply) == Receive(Expected(c, reply), b)
    ensures Receive(c, b).Asked? <==> c.Asked?
  {
    if c.Asked? { ReceiveMore(Taken(c.had, c.since, reply.value), c.kept, b); }
  }

  lemma FineReceives(c: Client, b: Batch, view: seq<Entry>, seqNo: nat)
    requires Fine(c, view, seqNo) && b.seqNo <= seqNo && !Receive(c, b).Lost?
    ensures Fine(Receive(c, b), view, seqNo)
  {
  }

  lemma DeliverSyncs(sys: System)
    requires Synced(sys) && sys.delivered < |sys.server.topic|
    ensures Synced(Next(sys, Deliver))
  {
    var sys', c := Next(sys, Deliver), Expecting(sys);
    var b := sys.server.topic[sys.delivered];
    ExpectedReceives(sys.client, sys.reply, b);
    assert UnderWay(sys) == [b] + UnderWay(sys');
    ReceiveFirst(c, b, UnderWay(sys'));
    assert b in UnderWay(sys);
    UnderWayIsOld(sys, b);
    if Receive(c, b).Lost? { ReceiveWaiting(Receive(c, b), UnderWay(sys')); }
    FineReceives(c, b, View(sys.server), sys.server.seqNo);
  }

  lemma EveryEventSyncs(sys: System, ev: Event)
    requires Synced(sys) && Enabled(sys, ev)
    ensures Synced(Next(sys, ev))
  {
    match ev
    case Changed(changes) => ChangedSyncs(sys, changes);
    case Enriched(changed, kind) => EnrichedSyncs(sys, changed, kind);
    case Overflowed(listing) => OverflowedSyncs(sys, listing);
    case Vanish => PublishSyncs(sys, View(sys.server), EmptyBatch(Gone));
    case Subscribe => SubscribeSyncs(sys);
    case First(opts) => FirstSyncs(sys, opts);
    case More(limit) => MoreSyncs(sys, limit);
    case Arrive => ArriveSyncs(sys);
    case Deliver => DeliverSyncs(sys);
  }

  lemma {:induction false} SyncedAlways(run: seq<System>, events: seq<Event>, n: nat)
    requires Run(run, events) && n < |run|
    ensures Synced(run[n])
  {
    if n > 0 {
      SyncedAlways(run, events, n - 1);
      assert Enabled(run[n - 1], events[n - 1]) && run[n - 1 + 1] == Next(run[n - 1], events[n - 1]);
      EveryEventSyncs(run[n - 1], events[n - 1]);
    }
  }

  // ---------------------------------------------------------------- main theorems

  /** In every run, a client that holds a list, is attached and has received everything published holds
      exactly the server's view, order and contents; and no batch ever fails to replay. */
  lemma ClientMirrorsServer(run: seq<System>, events: seq<Event>, n: nat)
    requires Run(run, events) && n < |run|
    ensures var sys := run[n];
            && !sys.client.Lost?
            && (sys.client.Holding? && sys.server.subscribed && sys.delivered == |sys.server.topic| ==>
                  sys.client.list == View(sys.server))
  {
    SyncedAlways(run, events, n);
    assert run[n].delivered == |run[n].server.topic| && run[n].server.subscribed ==> UnderWay(run[n]) == [];
  }

  /** In step m attach publishes the one resync that stands for a dropped buffer, before anything else. */
  ghost predicate MakesGood(run: seq<System>, events: seq<Event>, m: nat, first: Batch)
    requires m < |events| == |run| - 1
  {
    && events[m].Subscribe? && run[m].server.dropped && run[m].server.topic == []
    && first == EmptyBatch(Resync).(seqNo := run[m].server.seqNo + 1)
    && run[m + 1].server.topic == [first] && run[m + 1].server.pending == [] && !run[m + 1].server.dropped
  }

  /** What is published first, if it is not number one, is attach's resync. */
  lemma FirstPublished(s: Server, s': Server)
    requires Numbering(s) && s.topic == [] && s'.topic != []
    requires s' == Attach(s) || exists b :: s' == Publish(s, b)
    ensures s'.topic[0].seqNo == 1
            || (s.dropped && s' == Attach(s) && s'.topic == [EmptyBatch(Resync).(seqNo := s.seqNo + 1)])
  {
  }

  /** A step that publishes adds one batch, with the next number. */
  predicate AddsNext(s: Server, topic: seq<Batch>) {
    topic == s.topic
    || (s.subscribed && |topic| == |s.topic| + 1 && topic[..|s.topic|] == s.topic
        && topic[|s.topic|].seqNo == s.seqNo + 1)
  }

  lemma PublishGrows(s: Server, b: Batch)
    ensures AddsNext(s, Publish(s, b).topic)
  {
  }

  lemma EnrichedGrows(s: Server, changed: seq<Entry>, kind: Kind)
    ensures AddsNext(s, ApplyChanged(s, changed, kind).topic)
  {
    var (now, applied) := ApplyAll(s.entries, changed);
    var seen := FilterView(applied, s.includeHidden, s.filters);
    PublishGrows(s.(entries := now), EmptyBatch(kind).(thumbnails := seen));
    PublishGrows(s.(entries := now), EmptyBatch(kind).(changed := seen));
  }

  /** Published batches stay, and only attach adds more than the next one. */
  lemma TopicGrows(sys: System, ev: Event)
    ensures sys.server.topic <= Next(sys, ev).server.topic
    ensures !ev.Subscribe? ==> AddsNext(sys.server, Next(sys, ev).server.topic)
  {
    var s := sys.server;
    match ev
    case Changed(changes) =>
      var s' := s.(entries := FlushAll(s.entries, s.spec, changes));
      PublishGrows(s', Diff(Names(View(s)), View(s'), Touched(changes)));
    case Enriched(changed, kind) => EnrichedGrows(s, changed, kind);
    case Overflowed(listing) => PublishGrows(s.(entries := SortEntries(s.spec, listing)), EmptyBatch(Resync));
    case Vanish => PublishGrows(s, EmptyBatch(Gone));
    case _ =>
  }

  lemma {:induction false} FirstIsMadeGood(run: seq<System>, events: seq<Event>, n: nat)
    requires Run(run, events) && n < |run| && run[n].server.topic != [] && run[n].server.topic[0].seqNo != 1
    ensures exists m :: 0 <= m < n && MakesGood(run, events, m, run[n].server.topic[0])
  {
    var sys, ev := run[n - 1], events[n - 1];
    assert Enabled(sys, ev) && run[n - 1 + 1] == Next(sys, ev);
    TopicGrows(sys, ev);
    SyncedAlways(run, events, n - 1);
    if sys.server.topic != [] {
      FirstIsMadeGood(run, events, n - 1);
      var m :| 0 <= m < n - 1 && MakesGood(run, events, m, run[n - 1].server.topic[0]);
      assert MakesGood(run, events, m, run[n].server.topic[0]);
    } else if ev.Subscribe? {
      FirstPublished(sys.server, Attach(sys.server));
      assert MakesGood(run, events, n - 1, run[n].server.topic[0]);
    }
  }

  /** Published numbers are contiguous; the first is 1, or that of the one resync which attach publishes for a
      dropped buffer. Until attach every batch is kept, up to 64; with the next the buffer is dropped. */
  lemma NumbersAreContiguous(run: seq<System>, events: seq<Event>, n: nat)
    requires Run(run, events) && n < |run|
    ensures var s := run[n].server;
            && (forall i :: 0 <= i < |s.topic| - 1 ==> s.topic[i + 1].seqNo == s.topic[i].seqNo + 1)
            && (s.topic != [] && s.topic[0].seqNo != 1 ==>
                  exists m :: 0 <= m < n && MakesGood(run, events, m, s.topic[0]))
            && (s.topic != [] ==> s.topic[|s.topic| - 1].seqNo == s.seqNo)
            && |s.pending| <= 64
            && (s.dropped ==> !s.subscribed)
            && (!s.subscribed ==> (s.dropped <==> s.seqNo > 64) && (!s.dropped ==> |s.pending| == s.seqNo))
  {
    SyncedAlways(run, events, n);
    if run[n].server.topic != [] && run[n].server.topic[0].seqNo != 1 { FirstIsMadeGood(run, events, n); }
  }

  // ---------------------------------------------------------------- enrichment, exactly

  /** What enrichment sends: the applied snapshots that are shown. */
  function Sent(s: Server, changed: seq<Entry>, kind: Kind): Batch {
    var seen := FilterView(ApplyAll(s.entries, changed).1, s.includeHidden, s.filters);
    if kind.Thumbnails? then EmptyBatch(kind).(thumbnails := seen) else EmptyBatch(kind).(changed := seen)
  }

  lemma SentReplaces(s: Server, changed: seq<Entry>, kind: Kind)
    requires kind.Changes? || kind.Thumbnails?
    ensures Applied(View(s), Sent(s, changed, kind))
         == Some(ReplaceAll(View(s), FilterView(ApplyAll(s.entries, changed).1, s.includeHidden, s.filters)))
  {
    ReplaceOnly(View(s), Sent(s, changed, kind));
  }

  lemma ViewAfterEnrichment(s: Server, changed: seq<Entry>, kind: Kind)
    ensures View(ApplyChanged(s, changed, kind))
         == FilterView(ApplyAll(s.entries, changed).0, s.includeHidden, s.filters)
  {
  }

  /** The proviso on enrichment is exact: for every chunk of snapshots, replaying what is sent on the old view
      gives the new view if and only if for every entry the last snapshot that matches it is shown exactly when
      the entry was. */
  lemma EnrichmentExact(s: Server, changed: seq<Entry>, kind: Kind)
    requires DistinctNames(s.entries) && (kind.Changes? || kind.Thumbnails?)
    ensures Applied(View(s), Sent(s, changed, kind)) == Some(View(ApplyChanged(s, changed, kind)))
            <==> SnapshotsFit(s.entries, Visible(s.includeHidden, s.filters), changed)
  {
    var (now, applied) := ApplyAll(s.entries, changed);
    SentReplaces(s, changed, kind);
    ViewAfterEnrichment(s, changed, kind);
    FilterViewFilters(s.entries, s.includeHidden, s.filters);
    FilterViewFilters(now, s.includeHidden, s.filters);
    FilterViewFilters(applied, s.includeHidden, s.filters);
    ReplayExact(s.entries, Visible(s.includeHidden, s.filters), changed);
  }

  // ---------------------------------------------------------------- a snapshot that goes unseen

  /** An attached watch of one file that has published these batches. */
  function Watched(e: Entry, spec: SortSpec, sent: seq<Batch>): Server {
    Server([e], spec, false, [], |sent|, true, [], false, sent)
  }

  /** The same, just opened. */
  function Listed(e: Entry, spec: SortSpec): Server {
    Server([e], spec, false, [], 0, false, [], false, [])
  }

  function WholeView(spec: SortSpec): ListOptions {
    ListOptions(false, [], spec, 0, "")
  }

  lemma OnePage(e: Entry)
    ensures PageOf([e], "", 0) == Some(Page([e], 1, ""))
  {
    assert [e][0..1] == [e];
  }

  lemma OneFileIsAnswered(e: Entry, spec: SortSpec, sent: seq<Batch>)
    requires !e.hidden
    ensures var s := Watched(e, spec, sent);
            && Configure(s, WholeView(spec)) == s
            && Taken([], None, Answer(s, "", 0)) == Holding([e], |sent|)
  {
    FilterOne(Visible(false, []), e);
    assert View(Watched(e, spec, sent)) == [e];
    OnePage(e);
    assert [] + [e] == [e];
  }

  /** The flush that finds the file shown. */
  function TurnsUp(e: Entry): seq<FileChange> {
    [FileChange(e.name, Found(e))]
  }

  lemma FlushedAs(e: Entry, spec: SortSpec)
    ensures FlushAll([e.(hidden := true)], spec, TurnsUp(e)) == [e]
  {
    var h := e.(hidden := true);
    assert TurnsUp(e)[..0] == [];
    assert FlushAll([h], spec, []) == [h];
    assert [h][0 := e] == [e];
    assert DeleteAt([e], 0) == [];
    assert Resorted(spec, [e], 0) == [e];
  }

  /** It publishes one batch. */
  lemma TurnsUpIsSent(e: Entry, spec: SortSpec) returns (b: Batch)
    requires !e.hidden
    ensures Flush(Watched(e.(hidden := true), spec, []), TurnsUp(e)) == Watched(e, spec, [b])
    ensures b.kind == Changes
  {
    var h := e.(hidden := true);
    var s := Watched(h, spec, []);
    FlushedAs(e, spec);
    FilterOne(Visible(false, []), h);
    FilterOne(Visible(false, []), e);
    assert Names(View(s)) == [];
    var d := Diff([], [e], Touched(TurnsUp(e)));
    assert FileChange(e.name, Found(e)) in TurnsUp(e);
    FilterOne(Placed(SetOf([]), Touched(TurnsUp(e)), Increasing(KeptPositions([], [e]))), e);
    assert d.added == [e];
    b := d.(seqNo := 1);
    assert [] + [b] == [b];
  }

  /** A watch is opened over a hidden file; then the file is found shown, unmodified, and the client is told,
      asks for the view and gets it. */
  ghost predicate Told(run: seq<System>, e: Entry, spec: SortSpec) {
    && Run(run, [Subscribe, Changed(TurnsUp(e)), Deliver, First(WholeView(spec)), Arrive])
    && run[0].server == Listed(e.(hidden := true), spec)
  }

  ghost predicate Step(sys: System, ev: Event, sys': System) {
    Enabled(sys, ev) && sys' == Next(sys, ev)
  }

  lemma RunGoesOn(run: seq<System>, events: seq<Event>, ev: Event, sys: System)
    requires Run(run, events) && Step(run[|events|], ev, sys)
    ensures Run(run + [sys], events + [ev])
  {
    var run', events' := run + [sys], events + [ev];
    forall i | 0 <= i < |events'| ensures Enabled(run'[i], events'[i]) && run'[i + 1] == Next(run'[i], events'[i]) {
      if i < |events| {
        assert Enabled(run[i], events[i]) && run[i + 1] == Next(run[i], events[i]);
      }
    }
  }

  /** The file is found shown before the client asks for anything. */
  lemma FileTurnsUp(e: Entry, spec: SortSpec, b: Batch)
    requires Flush(Watched(e.(hidden := true), spec, []), TurnsUp(e)) == Watched(e, spec, [b]) && b.kind == Changes
    ensures var h, s := e.(hidden := true), Watched(e, spec, [b]);
            var shut := System(Watched(h, spec, []), Waiting, 0, None);
            && Step(System(Listed(h, spec), Waiting, 0, None), Subscribe, shut)
            && Step(shut, Changed(TurnsUp(e)), System(s, Waiting, 0, None))
            && Step(System(s, Waiting, 0, None), Deliver, System(s, Waiting, 1, None))
  {
  }

  lemma PageArrives(e: Entry, spec: SortSpec, b: Batch, asked: System)
    requires !e.hidden
    requires asked == System(Watched(e, spec, [b]), Asked([], [], None), 1, Some(Answer(Watched(e, spec, [b]), "", 0)))
    ensures Step(System(Watched(e, spec, [b]), Waiting, 1, None), First(WholeView(spec)), asked)
    ensures Step(asked, Arrive, System(Watched(e, spec, [b]), Holding([e], 1), 1, None))
  {
    OneFileIsAnswered(e, spec, [b]);
  }

  lemma OneFileIsListed(e: Entry, spec: SortSpec, b: Batch) returns (run: seq<System>)
    requires Flush(Watched(e.(hidden := true), spec, []), TurnsUp(e)) == Watched(e, spec, [b]) && b.kind == Changes
    ensures Run(run, [Subscribe, Changed(TurnsUp(e)), Deliver]) && run[0].server == Listed(e.(hidden := true), spec)
    ensures run[3] == System(Watched(e, spec, [b]), Waiting, 1, None)
  {
    var h, s := e.(hidden := true), Watched(e, spec, [b]);
    FileTurnsUp(e, spec, b);
    run := [System(Listed(h, spec), Waiting, 0, None)];
    RunGoesOn(run, [], Subscribe, System(Watched(h, spec, []), Waiting, 0, None));
    run := run + [System(Watched(h, spec, []), Waiting, 0, None)];
    assert [] + [Subscribe] == [Subscribe];
    RunGoesOn(run, [Subscribe], Changed(TurnsUp(e)), System(s, Waiting, 0, None));
    run := run + [System(s, Waiting, 0, None)];
    assert [Subscribe] + [Changed(TurnsUp(e))] == [Subscribe, Changed(TurnsUp(e))];
    RunGoesOn(run, [Subscribe, Changed(TurnsUp(e))], Deliver, System(s, Waiting, 1, None));
    run := run + [System(s, Waiting, 1, None)];
    assert [Subscribe, Changed(TurnsUp(e))] + [Deliver] == [Subscribe, Changed(TurnsUp(e)), Deliver];
  }

  lemma AskedAndHeld(run: seq<System>, events: seq<Event>, e: Entry, spec: SortSpec, b: Batch, asked: System)
    requires Run(run, events) && run[|events|] == System(Watched(e, spec, [b]), Waiting, 1, None) && !e.hidden
    requires asked == System(Watched(e, spec, [b]), Asked([], [], None), 1, Some(Answer(Watched(e, spec, [b]), "", 0)))
    ensures Run(run + [asked] + [System(Watched(e, spec, [b]), Holding([e], 1), 1, None)],
                events + [First(WholeView(spec))] + [Arrive])
  {
    PageArrives(e, spec, b, asked);
    RunGoesOn(run, events, First(WholeView(spec)), asked);
    RunGoesOn(run + [asked], events + [First(WholeView(spec))], Arrive,
              System(Watched(e, spec, [b]), Holding([e], 1), 1, None));
  }

  lemma OneFileIsHeld(e: Entry, spec: SortSpec) returns (run: seq<System>, b: Batch)
    requires !e.hidden
    ensures Told(run, e, spec)
    ensures run[5] == System(Watched(e, spec, [b]), Holding([e], 1), 1, None)
  {
    b := TurnsUpIsSent(e, spec);
    run := OneFileIsListed(e, spec, b);
    var s, events := Watched(e, spec, [b]), [Subscribe, Changed(TurnsUp(e)), Deliver];
    var asked := System(s, Asked([], [], None), 1, Some(Answer(s, "", 0)));
    AskedAndHeld(run, events, e, spec, b, asked);
    assert events + [First(WholeView(spec))] + [Arrive] ==
           [Subscribe, Changed(TurnsUp(e)), Deliver, First(WholeView(spec)), Arrive];
    run := run + [asked] + [System(s, Holding([e], 1), 1, None)];
  }

  /** Only then arrives the snapshot of the first listing, from when the file was hidden. Nothing is sent, and the
      client, caught up and without a reply to wait for, holds a file that is not in the view. */
  lemma UnfitSnapshotGoesUnseen(e: Entry, spec: SortSpec) returns (run: seq<System>)
    requires !e.hidden
    ensures Told(run, e, spec)
    ensures var sys := Next(run[5], Enriched(run[0].server.entries, Changes));
            && sys.client == Holding([e], 1) && sys.reply == None
            && sys.server.subscribed && sys.delivered == |sys.server.topic|
            && View(sys.server) == []
  {
    var b;
    run, b := OneFileIsHeld(e, spec);
    var h := e.(hidden := true);
    assert [h][..0] == [];
    assert ApplyAll([e], []) == ([e], []);
    assert ApplyAll([e], [h]) == ([h], [h]) by {
      assert [e][0 := h] == [h] && [] + [h] == [h];
    }
    FilterOne(Visible(false, []), h);
  }

  // ---------------------------------------------------------------- staying sorted

  /** Enrichment writes nothing out of order in this run. */
  ghost predicate EnrichesInOrder(run: seq<System>, events: seq<Event>)
    requires |run| == |events| + 1
  {
    forall i :: 0 <= i < |events| && events[i].Enriched? ==>
      AllFitInPlace(run[i].server.entries, run[i].server.spec, events[i].changed)
  }

  lemma PublishKeepsEntries(s: Server, b: Batch)
    ensures Publish(s, b).entries == s.entries && Publish(s, b).spec == s.spec
  {
  }

  lemma EnrichedEntries(s: Server, changed: seq<Entry>, kind: Kind)
    ensures ApplyChanged(s, changed, kind).entries == ApplyAll(s.entries, changed).0
    ensures ApplyChanged(s, changed, kind).spec == s.spec
  {
    var (now, applied) := ApplyAll(s.entries, changed);
    var seen := FilterView(applied, s.includeHidden, s.filters);
    PublishKeepsEntries(s.(entries := now), EmptyBatch(kind).(thumbnails := seen));
    PublishKeepsEntries(s.(entries := now), EmptyBatch(kind).(changed := seen));
  }

  lemma StepKeepsSorted(sys: System, ev: Event)
    requires DistinctNames(sys.server.entries) && Sorted(sys.server.spec, sys.server.entries)
    requires ev.Enriched? ==> AllFitInPlace(sys.server.entries, sys.server.spec, ev.changed)
    ensures Sorted(Next(sys, ev).server.spec, Next(sys, ev).server.entries)
  {
    var s := sys.server;
    match ev
    case Changed(changes) =>
      FlushAllSorted(s.entries, s.spec, changes);
      var s' := s.(entries := FlushAll(s.entries, s.spec, changes));
      PublishKeepsEntries(s', Diff(Names(View(s)), View(s'), Touched(changes)));
    case Enriched(changed, kind) =>
      ApplyAllSorted(s.entries, s.spec, changed);
      EnrichedEntries(s, changed, kind);
    case Overflowed(listing) =>
      SortEntriesSorts(s.spec, listing);
      PublishKeepsEntries(s.(entries := SortEntries(s.spec, listing)), EmptyBatch(Resync));
    case First(opts) => SortEntriesSorts(opts.sort, s.entries);
    case Vanish => PublishKeepsEntries(s, EmptyBatch(Gone));
    case _ =>
  }

  lemma NthStep(run: seq<System>, events: seq<Event>, i: nat)
    requires Run(run, events) && EnrichesInOrder(run, events) && i < |events|
    ensures run[i + 1] == Next(run[i], events[i])
    ensures events[i].Enriched? ==>
              AllFitInPlace(run[i].server.entries, run[i].server.spec, events[i].changed)
  {
    assert Enabled(run[i], events[i]);
  }

  lemma NamesAreDistinct(run: seq<System>, events: seq<Event>, n: nat)
    requires Run(run, events) && n < |run|
    ensures DistinctNames(run[n].server.entries)
  {
    SyncedAlways(run, events, n);
  }

  lemma OpenedSorted(run: seq<System>, events: seq<Event>)
    requires Run(run, events)
    ensures Sorted(run[0].server.spec, run[0].server.entries)
  {
  }

  lemma SortedAfter(run: seq<System>, events: seq<Event>, i: nat)
    requires Run(run, events) && EnrichesInOrder(run, events) && i < |events|
    requires Sorted(run[i].server.spec, run[i].server.entries)
    ensures Sorted(run[i + 1].server.spec, run[i + 1].server.entries)
  {
    NamesAreDistinct(run, events, i);
    NthStep(run, events, i);
    StepKeepsSorted(run[i], events[i]);
  }

  /** Flush, resync and page keep the entries sorted; enrichment does as long as what it overwrites fits. */
  lemma {:induction false} EntriesStaySorted(run: seq<System>, events: seq<Event>, n: nat)
    requires Run(run, events) && n < |run| && EnrichesInOrder(run, events)
    ensures Sorted(run[n].server.spec, run[n].server.entries)
  {
    if n == 0 {
      OpenedSorted(run, events);
    } else {
      EntriesStaySorted(run, events, n - 1);
      SortedAfter(run, events, n - 1);
    }
  }
}
