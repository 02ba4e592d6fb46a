# Verified models of dankgo's algorithms and protocols

This project models the parts of dankgo whose correctness is hard to see from reading one function, and
proves what they promise. All the files are Dafny 4.11; `dafny verify dfyconfig.toml` checks them together.

- **The concurrent map** (`syncmap`). `ConcurrentMap` is a transition system whose steps are the atomic loads,
  compare-and-swaps and statements under `mu`, for any number of goroutines and keys. `ConcurrentMapInvariant`
  proves what every step keeps, `ConcurrentMapLoose` follows entries that have left both maps,
  `ConcurrentMapHistory` watches a run next to a plain map,
  `ConcurrentMapLinearizable` gives the order in which the calls take effect, and `ConcurrentMapMisses` bounds how
  often the slow path is taken in vain. `SyncMap` is the same map as a class, called by one goroutine at a time.
- **The directory watch** (`files`). `FilesSort`, `FilesList`, `FilesDiff` and `FilesWatch` are the order, the
  cursor pages, the batches and the server; `FilesWatchProtocol` runs server and client together;
  `FilesWatchServer` is the watch as an object; `FilesPool` is the worker pool.
- **Wu's colour quantizer** (`material/quantizer`). `WuMoments` builds the prefix sums in place, `WuBoxes` queries
  them, `WuHistogram` says what they mean for the pixels, `WuCuts` what a set of boxes keeps and which colours it
  gives, and `WuQuantizer` runs the algorithm.
- **Lyrics** (`lyrics`). `LyricsRace` is the race between providers, `LyricsRate` the token buckets, and
  `Lyricsfile`, `LyricsfileMeaning`, `LyricsfileRoundTrip` and `LyricsfileCodec` the encoder and decoder.
- **`mimeapps.list`** (`desktop`). `Mimeapps` and `MimeappsLists` read and rewrite the file line by line,
  `MimeappsMeaning` tells what a file says, `MimeappsRendering`, `MimeappsSpelling` and `MimeappsRoundTrip` exactly
  what rewriting and reading give back, `MimeappsPlaces` where each line goes, `MimeappsDefaults` what setting a
  default does to a file, and `MimeappsWriter` has the loops.
- **The tone pair** (`material/dynamic`). `TonePair` settles the tones of two roles that ask separately.

`Wrappers`, `Text`, `Rounding`, `LyricsTypes` and `LyricsfileDocument` hold what several of them share.

Methods follow the source's loops and assignments and are proved equal to a function; the lemmas say what the
function means in terms of its inputs. Files, clocks, the network, timers and the scheduler appear as parameters or
as the choice of the next step.

Some results are not what a first reading suggests:

- `TonePair.KeepableExactly`: a pair keeps its distance for all tones exactly for some distances. All from 0 to 40
  are among them; in a dark scheme every distance above 40 and up to 50 is not, because the farther tone is pushed
  past 100. No bound is checked in the source.
- `MimeappsDefaults.RewritingExactly`: reading a `mimeapps.list`, writing it and reading it again gives the same
  exactly when no key of the three groups has a blank before its locale. `text/x [de]=` is read as a key that ends in
  a blank, and written without it: `MimeappsDefaults.TextXIsLost` gives the file. `MimeappsDefaults.SetDefaultsReadBack`
  says which types setting a default leaves as they were, and when an application it set is still listed as removed.
- `FilesWatchProtocol.EnrichmentExact`: a client follows an enrichment batch exactly when, for every entry, the last
  snapshot that matches it is shown if and only if the entry was. A snapshot is read without the lock and replaces its
  entry when only the name and the modification time agree; one read before `.hidden` changed takes a file out of the
  view, or puts it back, and the client is not told: `FilesWatchProtocol.UnfitSnapshotGoesUnseen` gives the run.
- `FilesWatch.OneSnapshotSortedExactly`: enrichment overwrites entries where they stand. A type found late leaves a
  listing sorted by type unsorted, as `FilesWatch.LateTypeIsOutOfOrder` shows, until the next sort.
- `FilesList.PageFailsExactly`: the slice expression of a page fails in two cases. A cursor with a negative index and
  the name of no entry is one, and no page issues such a cursor (`FilesList.ForeignCursorFails`). The other is a limit
  for which start plus limit exceeds the largest int; that happens with issued cursors, on every list of two or more
  entries (`FilesList.IssuedCursorOverflows`), and never with a limit that leaves room for the whole listing
  (`FilesList.ModestLimitsFit`). The limit comes from the client unchecked.
- `LyricsfileRoundTrip.BuiltDocumentsAreAccepted`: the encoder's limit on stamps, as a `float64`, is rounded up to
  9223372036854776 seconds. A line, or a written word, that starts at just that stamp passes the guard, its
  milliseconds overflow an `int64`, and the decoder refuses the document: `LyricsfileRoundTrip.LimitIsWrittenButNotRead`.
- `ConcurrentMapHistory.CreditedKept`: `CompareAndDelete` can succeed on an entry that another goroutine's
  `LoadAndDelete` has already taken out of the map. Its effect is then that earlier removal, and the other call finds
  nothing; the calls still have one order.

## Model

| member | source | states |
|---|---|---|
| ConcurrentMapLinearizable.Linearizable | syncmap/syncmap.go:127-467 | in every run of any number of goroutines the calls, with Range as one call for each key, have one order, respecting real time and containing every completed call, in which a plain map gives exactly the answers that were given |
| ConcurrentMapLinearizable.CompletedCallsAgree | syncmap/syncmap.go:127-467 | each completed Load, Swap, LoadOrStore, LoadAndDelete, CompareAndSwap or CompareAndDelete returned, and each Range showed at each key, what a plain map holds at one moment between call and return; promotion, copying, expunging and unexpunging never change the abstract map |
| ConcurrentMapLinearizable.QuietWhenUnlocked | syncmap/syncmap.go:45-109 | whenever mu is free: dirty is there exactly when amended, a key in both maps has one entry, a read entry is expunged exactly when it is missing from an existing dirty, misses stays below the size of dirty |
| ConcurrentMapLinearizable.LockedEntriesAreLive | syncmap/syncmap.go:165-202 | under mu a store never meets an expunged entry or a nil dirty map, so the ignored ok is true; steps outside the lock expunge nothing |
| ConcurrentMapLinearizable.RangePromotes | syncmap/syncmap.go:364-385 | in every run a Range that is about to let go of mu leaves no dirty map behind: all keys are in read and no miss is counted |
| ConcurrentMapInvariant.EveryStep | syncmap/syncmap.go:504-537 | every enabled step keeps the shape of the maps, evolves entries as the other goroutines may rely on, and changes the abstract map only as the call it belongs to would |
| ConcurrentMapInvariant.InvariantKept | syncmap/syncmap.go:86-109 | the invariant of maps, flags, entries and goroutines is kept by every step of every goroutine |
| ConcurrentMapInvariant.LockFreeSteps | syncmap/syncmap.go:282-308 | a step outside the lock leaves read, dirty, amended and misses alone and expunges no entry |
| ConcurrentMapInvariant.OthersKeep | syncmap/syncmap.go:223-308 | what a goroutine knows about the entry it holds survives any step of another |
| ConcurrentMapHistory.StepDecides | syncmap/syncmap.go:127-351 | each step either settles its call's answer against the abstract map of that moment or leaves it as settled before |
| ConcurrentMapHistory.ReturnsLinearized | syncmap/syncmap.go:254-292 | a call that returns has its moment, also when its entry was meanwhile dropped by a promotion or expunged |
| ConcurrentMapLoose.LooseKept | syncmap/syncmap.go:254-292 | in every step: a value in an entry that no map leads to any more is still held by the LoadAndDelete that took the entry out of dirty |
| ConcurrentMapHistory.CreditedKept | syncmap/syncmap.go:433-467 | when CompareAndDelete empties an entry that a LoadAndDelete took out of dirty, that removal, made after CompareAndDelete was called, becomes its effect, the other call finds the key absent at the moment after it, and the story of the plain map and the books of all other calls hold as before |
| ConcurrentMapHistory.ObservedAlways | syncmap/syncmap.go:37-70 | the plain map's story and the books about calls agree with the map in every reachable state |
| SyncMap.Map.Load | syncmap/syncmap.go:127-150 | the value of the plain map, which stays as it is; one miss is counted exactly when the key is looked for in dirty |
| SyncMap.Map.Swap | syncmap/syncmap.go:312-351 | the previous value is returned and the plain map updated at that key alone |
| SyncMap.Map.Store | syncmap/syncmap.go:161-163 | the plain map updated at that key alone |
| SyncMap.Map.LoadOrStore | syncmap/syncmap.go:183-216 | the existing value if there is one, else the value is stored; the plain map changes in no other way, and a key found in dirty counts one miss |
| SyncMap.Map.LoadAndDelete | syncmap/syncmap.go:254-275 | the value of the plain map, from which the key is removed; one miss is counted exactly when the key is looked for in dirty |
| SyncMap.Map.Delete | syncmap/syncmap.go:278-280 | the key is removed from the plain map |
| SyncMap.Map.CompareAndSwap | syncmap/syncmap.go:401-426 | swaps exactly when the plain map holds the expected value; one miss is counted exactly when the key is found in dirty |
| SyncMap.Map.CompareAndDelete | syncmap/syncmap.go:433-467 | deletes exactly when the plain map holds the expected value; one miss is counted exactly when the key is looked for in dirty |
| SyncMap.Map.Range | syncmap/syncmap.go:364-396 | no key twice, every visit shows the map's value, and nothing left out unless the callback stopped at the last visit; an amending dirty map is promoted |
| SyncMap.Map.MissLocked | syncmap/syncmap.go:504-512 | the miss that reaches the size of dirty promotes it and resets the count; others only count; no key's value changes |
| SyncMap.Map.DirtyLocked | syncmap/syncmap.go:514-526 | dirty becomes the live part of read, the dead entries are expunged, no key's value changes |
| ConcurrentMapMisses.MissesAreBounded | syncmap/syncmap.go:63-69 | in every run, between a promotion or the beginning and the next promotion, calls go through the dirty map for their key, and count a miss, at most as often as the largest dirty map in between has keys |
| FilesSort.CompareIsTotal | files/sort.go:111-147 | for every sort specification the comparator is antisymmetric, and zero exactly for entries of one name and collation key that agree in the sorted field and, with directories first, in being directories |
| FilesSort.CompareIsTransitive | files/sort.go:111-147 | and transitive, so it is a strict total order on distinct names |
| FilesSort.SortedMeans | files/sort.go:111-147 | a listing of distinct names is sorted if and only if each entry is to be listed before all that follow it: directories first if asked for, then the smaller field, or the greater if descending, then the collation key and the name in dictionary order |
| FilesSort.SortedIsUnique | files/sort.go:111-127 | a listing of distinct names has one sorted arrangement |
| FilesSort.InsertSorted | files/sort.go:149-166 | the binary search inserts where the specification says |
| FilesSort.InsertEqualsSort | files/sort.go:149-166 | inserting into a sorted listing gives what sorting the whole listing gives |
| FilesSort.ResortEqualsSort | files/watch.go:292-296 | taking one changed entry out and inserting it again gives what sorting the whole listing gives |
| FilesList.CursorResumes | files/list.go:122-143 | a cursor finds the successor of its entry, wherever that entry now stands |
| FilesList.PageAfterEdit | files/list.go:105-143 | after any edit in which the cursor's entry survives, the next page starts at that entry's successor; it fails exactly when there is one and start plus limit exceeds the largest int |
| FilesList.PageAfterLoss | files/list.go:122-143 | when the cursor's entry is gone the next page starts at its index, or at the end of what is left |
| FilesList.PageAfterDeletion | files/list.go:122-143 | if it is the only entry gone, that is where its successor now stands |
| FilesList.MalformedStartsOver | files/list.go:122-133 | a cursor without a colon or without a number before it starts from the beginning |
| FilesList.PageIsFull | files/list.go:105-120 | a page has as many entries as were asked for, 500 if none were, or all that are left, and tells how many there are |
| FilesList.WalkReaches | files/list.go:105-120 | pages taken one after another by their cursors cover a stretch from the start without gap or overlap, and there are at most one more of them than entries |
| FilesList.WalkVisitsAll | files/list.go:105-143 | a walk that has ended has visited every entry once, in order |
| FilesList.WalkGoesOn | files/list.go:105-120 | a walk that has not ended goes on: the cursor it was given yields a next page if and only if start plus limit does not exceed the largest int, as no limit does that leaves room for the whole listing |
| FilesList.PageFailsExactly | files/list.go:105-143 | the slice expression is out of range if and only if the cursor has a negative index and the name of no entry, or there is an entry to resume at and start plus limit exceeds the largest int |
| FilesList.ModestLimitsFit | files/handlers.go:334-348 | a limit that leaves room for the whole listing never overflows, whatever the cursor |
| FilesList.ForeignCursorFails | files/list.go:122-143 | on every list the cursor "-1:name" with the name of no entry fails |
| FilesList.IssuedCursorOverflows | files/list.go:105-120 | on every list of two or more entries the cursor issued by a first page of one entry fails with the largest limit |
| FilesDiff.DiffReplays | files/watch.go:252-290 | for any set of touched entries deleted, changed or added in one flush, removing by name and inserting at the given places turns the old view into the new one, entries and order |
| FilesDiff.DiffSendsExactly | files/watch.go:252-290 | exactly which entries a batch adds, changes and removes: untouched ones that stay are not sent; touched ones are sent as changed while those that stay keep their order, and are removed and added when they do not |
| FilesWatch.FlushReflects | files/watch.go:201-245 | for every name: without a readable change its entry stays; last read as missing it is gone; last read as a file it has exactly what was found, with the stored thumbnail if and only if the times of modification agree |
| FilesWatch.FlushAllKeeps | files/watch.go:201-238 | a flush keeps names distinct and the untouched entries in their relative order |
| FilesWatch.ViewShows | files/filter.go:33-58 | the view is the entries that are not hidden, or all if hidden ones are asked for, and that are directories or match a pattern, if there are patterns; all of them, in order |
| FilesWatch.ConfigureTells | files/watch.go:471-484 | a page request lists the same entries in the order asked for, sets what is shown, and changes nothing else |
| FilesWatch.ResyncTells | files/watch.go:309-324 | a resync leaves exactly the new listing, sorted, and an attached client is told; so it is of the end |
| FilesWatch.EnrichmentTells | files/watch.go:386-415 | an attached client is sent the applied snapshots that are shown, as thumbnails or as changes, and nothing when there is none |
| FilesWatch.ReplayExact | files/watch.go:386-415 | for any chunk, replacing the entries of the old view by the shown snapshots gives the new view if and only if for every entry the last snapshot that matches it is shown exactly when the entry was |
| FilesWatch.FlushAllSorted | files/watch.go:201-238 | a flush keeps the entries sorted |
| FilesWatch.OneSnapshotSortedExactly | files/watch.go:386-415 | an enriched snapshot keeps sorted entries sorted if and only if it fits between the neighbours of the entry it overwrites |
| FilesWatch.SameOrderFits | files/watch.go:366-381 | a snapshot that differs from its entry in no sorted field fits, so what enrichment finds out disturbs only a sort by type |
| FilesWatch.LateTypeIsOutOfOrder | files/watch.go:395-403 | under a sort by type a type found late is written where the old type stood, and the listing is no longer sorted |
| FilesWatchProtocol.ClientMirrorsServer | files/watch.go:425-484 | in every run, with pages on their way while batches are published and delivered, and a list gathered from any number of pages of one sequence number: a client that holds a list, is attached and has received everything holds exactly the server's view, and no batch fails to replay |
| FilesWatchProtocol.NumbersAreContiguous | files/watch.go:425-463 | published numbers are contiguous; the first is one, or that of the resync which attach published alone, with the buffer emptied, in the step that followed a dropped buffer; until attach every batch is kept up to 64, and with the next the buffer is dropped |
| FilesWatchProtocol.EnrichmentExact | files/watch.go:386-415 | for every chunk of snapshots, names repeated or not, replaying what is sent gives the server's view if and only if for every entry the last snapshot that matches it is shown exactly when the entry was |
| FilesWatchProtocol.UnfitSnapshotGoesUnseen | files/watch.go:386-415 | for every file and order: a run that lists the file as hidden, flushes it as shown, and then enriches with the snapshot of that first listing ends with the client attached, caught up and holding a file that is not in the view |
| FilesWatchProtocol.EntriesStaySorted | files/watch.go:201-484 | in every run the entries stay sorted as long as every enriched snapshot fits where it is written |
| FilesWatchProtocol.EveryEventSyncs | files/watch.go:201-484 | every flush, enrichment, resync, end, attach, page and delivery keeps the client on course |
| FilesWatchServer.RunDiff | files/watch.go:252-290 | the loops over the old names and the new view build exactly the batch of the specification |
| FilesWatchServer.RunFilterView | files/filter.go:46-58 | the loop keeps exactly the entries that are shown |
| FilesWatchServer.RunPasses | files/filter.go:33-44 | the search loop finds whether the entry matches a pattern of the filter |
| FilesWatchServer.Watch.PublishLocked | files/watch.go:425-443 | empty changes are not sent; others are numbered and sent, buffered, or drop the buffer |
| FilesWatchServer.Watch.RunFlush | files/watch.go:201-238 | the fields after a flush are those of the specification, names stay distinct, and every name holds what was last read of it |
| FilesWatchServer.Watch.RunApplyChanged | files/watch.go:386-415 | stale snapshots are skipped, the others replace their entries and are published if shown |
| FilesWatchServer.Watch.RunResync | files/watch.go:309-324 | the listing replaces all entries and a resync is published |
| FilesWatchServer.Watch.RunAttach | files/watch.go:446-463 | the buffer is sent in order, or one resync in its place when it was dropped |
| FilesWatchServer.Watch.RunPage | files/watch.go:471-484 | the page is cut from the view under the new options, with the number it is good for, or is none where the slice expression panics |
| FilesPool.PoolIsBoundedAndFair | files/pool.go:24-50 | in every interleaving at most max workers run, tasks start once and in order of submission, and with capacity to spare no more tasks wait than workers are on their way |
| FilesPool.DrainedMeansFinished | files/pool.go:52-58 | when drain returns every task submitted before is finished |
| FilesPool.IdleIsBroadcast | files/pool.go:36-58 | the pool becomes idle only in the step that broadcasts, so drain misses no wake-up |
| FilesPool.Guarded.RunSubmit | files/pool.go:24-34 | the task is queued last and a worker is spawned exactly below the bound |
| FilesPool.Guarded.RunSeek | files/pool.go:36-50 | the first task is taken, or the worker leaves when there is none |
| WuMoments.IndexInjective | material/quantizer/wu.go:83-85 | no two cells of the 33 by 33 by 33 grid share an index |
| WuMoments.ComputeMoments | material/quantizer/wu.go:111-139 | although sums overwrite the histogram as they are built, each cell ends with the sum over all cells up to it in the three axes |
| WuBoxes.CutVolumes | material/quantizer/wu.go:306-344 | in each direction bottom plus top at a position is the volume of the lower half, and the rest of the whole is that of the upper |
| WuBoxes.VolumeIsDirectSum | material/quantizer/wu.go:295-304 | eight lookups give the sum of the histogram over the box, taken cell by cell |
| WuHistogram.VolumeIsTotal | material/quantizer/wu.go:87-139 | for every box the tables answer what the opaque pixels in it add up to |
| WuHistogram.MeansStayInside | material/quantizer/wu.go:87-109 | the sums of a box's pixels lie between its weight times the least and the greatest colour value of its cells |
| WuCuts.GoodCutsLeaveLeastError | material/quantizer/wu.go:257-293 | the cut with the best score leaves the least squared error of all cuts in all directions with pixels on both sides |
| WuCuts.VarianceIsNotNegative | material/quantizer/wu.go:198-205 | the variance of a box that holds pixels is never negative |
| WuCuts.VarianceIsSquaredError | material/quantizer/wu.go:198-205 | the variance of a box is the sum over its opaque pixels of the squared distances of red, green and blue from their means |
| WuCuts.CutKeepsGrown | material/quantizer/wu.go:207-255 | after any number of cuts the boxes partition the cube, conserve every sum of the pixels, and hold pixels each |
| WuCuts.MeanInRange | material/quantizer/wu.go:182-196 | a box's rounded mean lies among the colours of its own cells, so no byte wraps |
| WuCuts.MeanIsNearest | material/quantizer/wu.go:182-196 | each channel of a box's colour is the whole number nearest to the mean of its pixels, a half going up |
| WuCuts.ColorsAreDistinct | material/quantizer/wu.go:182-196 | boxes of a partition that hold pixels give one colour each, pairwise different |
| WuQuantizer.Maximize | material/quantizer/wu.go:257-293 | the first of the best cuts along a direction, or none exactly when no cut scores above zero |
| WuQuantizer.ChooseCut | material/quantizer/wu.go:207-228 | the switch over the directions finds the first of the cuts no other beats, red before green before blue and low before high, and gives up only when none scores above zero |
| WuQuantizer.Cut | material/quantizer/wu.go:207-255 | one box becomes the two halves of its first best cut, with pixels on both sides, or nothing changes |
| WuQuantizer.LargestVariance | material/quantizer/wu.go:159-166 | the first box with the largest variance |
| WuQuantizer.Turn | material/quantizer/wu.go:150-171 | each turn cuts the box that is due by its first best cut, or finds that it has none; partition, conservation and positive weights are kept, the recorded values are the variances, and the next box due is the first of largest variance |
| WuQuantizer.FillBoxes | material/quantizer/wu.go:141-173 | the loop ends, and goes through a run of the greedy algorithm to its end: enough boxes, or every box has one cell, no variance, or no cut that scores |
| WuQuantizer.QuantizerWu.ConstructHistogram | material/quantizer/wu.go:87-109 | the five tables are the histograms of the opaque pixels |
| WuQuantizer.QuantizerWu.CreateResult | material/quantizer/wu.go:182-196 | the colours are the rounded means of the boxes that hold pixels, in order |
| WuQuantizer.QuantizeWu | material/quantizer/wu.go:61-81 | with an opaque pixel: one colour per box of the greedy run, which always cuts a box of largest variance by a best cut, at most maxColors, pairwise different, each its box's mean and in its box's range; without one, or for no colours, nothing |
| WuQuantizer.PaletteIsDetermined | material/quantizer/wu.go:61-81 | the pixels and the number of colours alone decide which colours come out, and in which order |
| LyricsRace.OrderDoesNotMatter | lyrics/lyrics.go:143-196 | without timers every arrival order gives one answer: the earliest reply with a line with words; if there is none, the earliest with lines or instrumental; if there is none, the earliest found; else no lyrics if some provider did not fail, or the last one's error |
| LyricsRace.EarlyIsPatient | lyrics/lyrics.go:176-182 | an answer given before all replies are in is the answer of waiting for them all |
| LyricsRace.DecidedIsFinal | lyrics/lyrics.go:198-216 | when neither search finds a provider worth waiting for, no reply still to come changes the best result |
| LyricsRace.UndecidedCanChange | lyrics/lyrics.go:198-216 | and otherwise some reply a provider may honestly give would change it, so the race is right to wait |
| LyricsRace.AnswersAreBest | lyrics/lyrics.go:159-196 | timers included: a found result is the best of all that was heard, in the same sense, the fall-through never discards one, and the end of the grace period always brings one |
| LyricsRace.GraceEndsExactly | lyrics/lyrics.go:163-186 | the end of the grace period ends the race if and only if some provider has found lyrics and all before it have answered; the timeout always does |
| LyricsRace.BestFound | lyrics/lyrics.go:231-245 | the loop finds the best reply: words before lines or instrumental before plain text, the earliest provider among equals |
| LyricsRace.BlockedAhead | lyrics/lyrics.go:198-206 | whether a provider ahead is out that could answer at the same tier |
| LyricsRace.UpgradePending | lyrics/lyrics.go:208-216 | whether a provider behind is out that could answer at a higher tier |
| LyricsRace.LeaderFound | lyrics/lyrics.go:218-229 | whether some provider has found lyrics and all ahead of it have finished |
| LyricsRace.LookupProviders | lyrics/lyrics.go:155-196 | the select loop gives the answer of the fold over what arrives, for replies, grace and timeout in any order |
| LyricsRate.RateLimiter.AllowRequest | lyrics/lyrics.go:302-320 | the new buckets and the verdict, for a provider seen before or not |
| LyricsRate.RateIsBounded | lyrics/lyrics.go:302-320 | over calls in time order, whoever else asks in between, a provider is granted at most ten requests and one per two seconds in any window |
| LyricsRate.BucketsStaySound | lyrics/lyrics.go:312-319 | every bucket holds between none and ten tokens |
| LyricsRate.PatienceIsGranted | lyrics/lyrics.go:312-319 | a provider that waits two seconds is never refused |
| LyricsRate.BurstIsTen | lyrics/lyrics.go:302-320 | of requests at one moment exactly as many are granted as there are whole tokens, so the bound is met |
| LyricsRate.FreshBurstIsTen | lyrics/lyrics.go:302-320 | a provider not asked before is granted ten requests at one moment and no more |
| LyricsRate.BurstComesBack | lyrics/lyrics.go:312-319 | so is one that has not been asked for twenty seconds |
| LyricsRate.AskingCosts | lyrics/lyrics.go:312-319 | a grant takes one token, a refusal none, and no other provider's change |
| LyricsTypes.SortLinesIsStable | lyrics/types.go:130-132 | lines come out by start, the same lines, equal starts in the order they had |
| LyricsfileMeaning.DecodeAcceptsExactly | lyrics/lyricsfile.go:74-107 | exactly which documents are accepted: version 1.0 and, unless instrumental, at most 2000 lines, of plain text too, each with a start and no end before it, and at most 16000 words; and exactly which of the others are malformed rather than too large |
| LyricsfileMeaning.DecodedAs | lyrics/lyricsfile.go:77-132 | an accepted document is read as its metadata and its lines, sorted stably by start, with its plain text or that of the lines |
| LyricsfileMeaning.LineIsReadAs | lyrics/lyricsfile.go:100-145 | a line keeps its words if and only if all are timed and together are its text, which is not blank; its text, its end, each word, and its start, the earliest of its own and theirs |
| LyricsfileMeaning.EncodeRefusesExactly | lyrics/lyricsfile.go:151-221 | exactly which lyrics are refused, and which of them as malformed rather than too large |
| LyricsfileMeaning.EncodedAs | lyrics/lyricsfile.go:151-221 | lyrics are written as version 1.0 with their metadata, their lines by start, and their plain text or that of the lines |
| LyricsfileMeaning.LineIsWrittenAs | lyrics/lyricsfile.go:181-209 | a line is written if and only if its stamps can be, as the nearest whole milliseconds, with its words if each can be and together they are its text, and from the earliest start |
| LyricsfileMeaning.SourceDecides | lyrics/lyricsfile.go:151-157 | lyrics from a Lyricsfile are written as that file; of all others what they came from does not matter |
| LyricsfileRoundTrip.DecodeUndoesEncode | lyrics/lyricsfile.go:151-221 | lyrics with whole-millisecond stamps whose words spell their line and do not start before it come back whole: lines, words, order, metadata, plain text |
| LyricsfileRoundTrip.BuiltDocumentsAreAccepted | lyrics/lyricsfile.go:74-132 | a document the encoder builds passes all checks of the decoder if and only if every start of a line or written word fits an int64 in milliseconds; it then keeps metadata, line count and non-empty plain text |
| LyricsfileRoundTrip.LimitIsWrittenButNotRead | lyrics/lyricsfile.go:223-229 | a line that starts at the encoder's limit is written, and the decoder refuses the document |
| LyricsfileRoundTrip.WritableExactlyWhen | lyrics/lyricsfile.go:151-221 | exactly which lyrics are encoded: title, artist, no negative duration, counts within bounds, every line's stamps within the guard and in order |
| LyricsfileRoundTrip.DecodedLyricsAreFaithful | lyrics/lyricsfile.go:100-145 | everything the decoder returns is sorted and of the form that comes back whole |
| LyricsfileRoundTrip.DecodedLyricsComeBack | lyrics/lyricsfile.go:74-221 | lyrics read from a document and written anew read back the same |
| LyricsfileRoundTrip.WordsComeBack | lyrics/lyricsfile.go:231-258 | spans exist only when the decoder will keep them: timed, spelling the line |
| LyricsfileCodec.LyricsfileWords | lyrics/lyricsfile.go:135-145 | all the words, or none when one has no usable timing |
| LyricsfileCodec.LyricsfileSpans | lyrics/lyricsfile.go:231-258 | the spans of words that are complete, timed and spell the line |
| LyricsfileCodec.ParseLyricsfile | lyrics/lyricsfile.go:70-133 | the loops give what the decoding function says, errors in the source's order |
| LyricsfileCodec.AsLyricsfile | lyrics/lyricsfile.go:151-221 | the loops give what the encoding function says, errors in the source's order |
| MimeappsLists.SplitList | desktop/parser.go:58-72 | the loop gives the trimmed parts that are not blank |
| MimeappsLists.ListOfFlatten | desktop/mimeapps.go:166-173 | a list of items comes back from its text, the empty one too |
| MimeappsLists.FlattenEndsEach | desktop/mimeapps.go:166-173 | every item is written with a semicolon after it |
| MimeappsMeaning.ListIsReadByParts | desktop/parser.go:58-72 | any value is read part by part between semicolons, each part trimmed and dropped when blank |
| MimeappsMeaning.ClassifyExactly | desktop/parser.go:19-46 | exactly which lines are blank, comments, headers and entries, and with which key, locale cut, and value |
| MimeappsMeaning.FirstLineCounts | desktop/parser.go:13-56 | a group says of a key what its first line for it says, however often the group is headed, and nothing when there is none |
| MimeappsMeaning.FileSays | desktop/mimeapps.go:88-114 | for every file and type: its default is the first application its first default line lists, and the applications added and removed are those its first lines list |
| MimeappsMeaning.RefusesExactly | desktop/mimeapps.go:140-189 | nothing is written if and only if a type or an application holds a line end or a bracket |
| MimeappsPlaces.RewritesInPlace | desktop/mimeapps.go:194-308 | for every text: all lines stay where they are but for entries of the three groups, of which the first for each key that is to be written, in the first section of its group, is replaced in its place and the others go; new entries come in byte order at the end of their section, before its trailing blank lines, and new sections last |
| MimeappsRendering.FinishedKeeps | desktop/mimeapps.go:194-308 | the finished text lacks no entry, and renders to itself |
| MimeappsSpelling.GroupsAreReread | desktop/mimeapps.go:194-308 | whatever the text held before, each group of the rendered text, read again, holds its entries under trimmed keys, each with the value of its first spelling in byte order |
| MimeappsRoundTrip.WhatIsReadBack | desktop/mimeapps.go:88-308 | for every original text and all associations the renderer accepts, what parsing the rendered text gives: the associations under trimmed keys |
| MimeappsRoundTrip.ReadBackExactly | desktop/mimeapps.go:88-308 | parsing undoes rendering if and only if no key has blanks around it |
| MimeappsRoundTrip.ParsingUndoesRendering | desktop/mimeapps.go:88-308 | for every original text and every well-formed set, parsing what is rendered gives back the set: repeated groups, keys with locales and missing groups included |
| MimeappsRoundTrip.RenderingAgainChangesNothing | desktop/mimeapps.go:191-308 | rendering the same set again changes no line |
| MimeappsRoundTrip.EverythingElseSurvives | desktop/mimeapps.go:191-308 | comments, blank lines, headers, junk and all lines of other groups survive in order; besides entries only gaps and headers of new sections are added, at the end |
| MimeappsRoundTrip.OtherLinesSurvive | desktop/mimeapps.go:191-308 | the same of the raw lines of the file: those that are not entries of the three groups are followed by empty lines and headers of the three groups alone |
| MimeappsWriter.ScanGroups | desktop/parser.go:13-56 | the scanner loop gives the groups of the fold: first key wins, locales are cut, headers reopen groups |
| MimeappsWriter.FlushMissing | desktop/mimeapps.go:208-235 | missing entries go in sorted before the trailing blank lines, and are marked |
| MimeappsWriter.RenderMimeapps | desktop/mimeapps.go:194-308 | the whole rewriting gives the rendered lines, or nothing exactly when a field would corrupt the file |
| MimeappsWriter.UpdateDefaults | desktop/mimeapps.go:351-378 | the loops over types and removed lists give the updated associations |
| MimeappsWriter.SetDefaultAssociations | desktop/mimeapps.go:343-379 | the lines the file holds after setting a default, or nothing exactly when a field would corrupt it |
| MimeappsDefaults.DefaultsAreSet | desktop/mimeapps.go:347-379 | the application is the default of every type asked for; its added list is the old one with the application appended when absent, its removed list the old one without it, in order, and gone when empty; no other type changes |
| MimeappsDefaults.RewritingExactly | desktop/mimeapps.go:145-164 | for every file the renderer accepts: reading, writing and reading again gives the same if and only if no key of the three groups has a blank before its locale |
| MimeappsDefaults.BlankBeforeLocaleIsLost | desktop/parser.go:40-52 | for every key, locale and application: an entry with a blank before its locale is read as one type and, once written, as another |
| MimeappsDefaults.TextXIsLost | desktop/parser.go:40-52 | the same for one file |
| MimeappsDefaults.DefaultStillRemoved | desktop/mimeapps.go:347-379 | for every key, locale and application: a file in which the application, set as the default, is still listed as removed from the type |
| MimeappsDefaults.FilesAreReadable | desktop/parser.go:13-72 | keys read from any file are not empty, do not begin with a blank or a comment sign and hold no equals sign; list items are trimmed and hold no semicolon |
| MimeappsDefaults.SetDefaultsReadBack | desktop/mimeapps.go:145-164 | after setting defaults in any file that can be written, reading it finds for each type asked for the new default, the old added list with the application appended when absent, and what else was removed still removed, in order; the application is off the removed list exactly when no other spelling of the type keeps it there; every other type is as it was exactly when each group has it without blanks around it, or not under any spelling; all other lines are still there in order |
| MimeappsDefaults.DefaultLineReadsBackExactly | desktop/parser.go:26-52 | for every type the renderer accepts: the line that sets its default is read back as that if and only if the type has no blanks around it, no equals sign and no leading comment sign; with a comment sign it is a comment |
| TonePair.GetTone | material/dynamic/calculator.go:52-147 | one role's call returns the tone that the pair settles on for it |
| TonePair.Settle | material/dynamic/calculator.go:110-141 | the assignments through clamp, awkward zone and stay-together give the settled pair |
| TonePair.AskBoth | material/dynamic/calculator.go:62-147 | two calls over one background give the two roles tones in range, outside the awkward zone and apart as the polarity asks, for every distance that can be kept |
| TonePair.RolesComeOutApart | material/dynamic/calculator.go:62-147 | by the roles' names, for every distance that can be kept: lighter means the first is at least the distance above the second, darker below; nearer and farther mean the same by scheme |
| TonePair.RolesGetWhatTheyWant | material/dynamic/calculator.go:85-113 | roles whose own tones, or those their contrast asks of the background, already are as the polarity asks and not awkward come out with just these |
| TonePair.SettledExactly | material/dynamic/calculator.go:115-141 | for all tones and every distance: which role moves, where to, and what the awkward zone does to one or to both |
| TonePair.PairsStayApart | material/dynamic/calculator.go:110-141 | every distance from 0 to 40 is kept between the two roles, in every scheme, polarity and contrast |
| TonePair.KeepableExactly | material/dynamic/calculator.go:110-141 | a distance is kept for all tones if and only if it lies in the stated ranges |
| TonePair.GoodTonesStay | material/dynamic/calculator.go:110-141 | tones that are already well apart are returned as they are |

## Left out

- ConcurrentMapLinearizable.Linearizable: a Range is one call for each key it comes to, which promotes the dirty map if need be and shows one key; as documented, it need not show all keys as of one moment. A callback that stops it is modelled in `SyncMap` alone.
- FilesWatchProtocol.ClientMirrorsServer: the client's side of the protocol is not in the repository; the model's client keeps the batches that come in before its page and joins pages of one sequence number. Enrichment is limited to snapshots shown like their entries, which `EnrichmentExact` proves necessary, and a page request that would panic is no event: `PageFailsExactly` says which those are.
- FilesWatchProtocol.NumbersAreContiguous: says nothing about what is published after a directory is gone.
- WuMoments.ComputeMoments: is run once for each of the five tables, which the source fills in the same three loops; the tables share nothing.
- WuQuantizer.QuantizeWu: moments are exact integers and scores exact quotients; rounding of large `float64` sums and cancellation by a context are not modelled. The summed tables are passed on as values, since nothing writes to them any more.
- LyricsfileRoundTrip.BuiltDocumentsAreAccepted: stamps are exact. What a number of milliseconds that does not fit becomes is left to the platform; the model takes the least `int64`, as amd64 does.
- LyricsfileRoundTrip.DecodeUndoesEncode: assumes stamps whose milliseconds fit an `int64`; stamps are exact, so the rounding of `float64` seconds is not modelled. Voices, background and group are dropped by the format.
- LyricsfileRoundTrip.DecodedLyricsComeBack: the same.
- LyricsfileMeaning.EncodedAs: the same of the stamps.
- LyricsRace.OrderDoesNotMatter: assumes that a source without word sync answers at most at tier one, which the source relies on.
- LyricsRace.LookupProviders: needs at least one provider, as its caller ensures; goroutines, contexts and timers are the events it is given.
- MimeappsWriter.RenderMimeapps: a file is a sequence of lines; carriage returns, the scanner's line limit, the final newline and the atomic write are not modelled.
- TonePair.GetTone: models the pair branch; the other branches of the function, the 2025 delegate, the contrast formulas and `ForegroundTone` are not modelled, the last being any function into the tones.
- SyncMap.Map.Range: the callback is a function of the key and the value; calls it makes on the map meanwhile are not modelled.
- MimeappsDefaults.SetDefaultsReadBack: the types asked for are trimmed and hold no equals sign or leading comment sign, without which `DefaultLineReadsBackExactly` shows that they are not read back, and the application's name holds no semicolon; the source does not check.
- Merging the associations of several files: the first default wins and lists are joined.
- LyricsRate.RateLimiter.AllowRequest: the lock and the monotonic clock are a sequence of calls in time order.
- Reading directories, file notifications, enrichment workers, MIME lookup and the closing of a watch: a flush is given what each name turned out to be.
- Collation keys and glob patterns: a key is any string and a pattern any predicate on names.
- `slices.SortStableFunc`, `sort.SliceStable` and `sort.Strings`: stated as functions, not as algorithms.
- YAML text, its node checks and its size limit: a Lyricsfile starts at the decoded document, and the verbatim input is the document it decodes to.
- LRC, TTML and the provider fetchers, caches and sidecars: a provider's reply is any result or error.
- `wsmeans`, scoring, HCT, CAM16 and temperature: transcendental floating point.
- The Wayland, IPC, D-Bus and portal layers: sockets and generated code.
