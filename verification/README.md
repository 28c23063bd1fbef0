# agentflash: a verified model

agentflash watches one directory. A tap turns kernel events into records and filters them; a hub keeps the latest
records in a ring and fans every record out to WebSocket clients; the browser keeps a file tree and a Claude activity
label in step with what arrives. This project models the stateful parts of that pipeline in Dafny 4.11 and proves what
each of them is for. `dafny verify dfyconfig.toml` checks everything.

What is modelled, part by part:

- **Hub and replay protocol.** `ReplayProtocol` is a transition system in which any number of producers and WebSocket
  connections interleave: a send takes the lock once (store in the ring, copy the client set) and then makes its
  non-blocking offers one by one without it; a connection registers, snapshots the ring from a second goroutine,
  pushes the snapshot into the queue that also receives live frames, drains it, and leaves at any time. `ReplaySafety`
  is its invariant and `ReplayTheorems` the guarantees over every run; `ReplayLog` reads log, snapshots and queues off
  the actions of the run. `Hub` is the object itself: array, head, filled flag, client set and counters updated in
  place.
- **Linux tap.** `Fanotify` is the record decoder, its format (`struct fanotify_event_metadata` of fanotify(7)) and
  its inverse, `FanotifyLayout` its offsets byte by byte; `FanotifyStream` is what a run of reads delivers;
  `FanotifyTap` is the read loop with its reused buffers, filter, counters and output. `TapBooks` holds the verdicts
  and counters both taps share.
- **macOS tap.** `FsUsageGrammar` states the regular expression of an fs_usage line as a predicate on its pieces;
  `FsUsageLine` is `ParseLine`; `SpacedProcess` is what becomes of process names with blanks; `DarwinTap` is the scan
  loop.
- **Browser.** `ClaudeLabel` is the timed activity label; `Registry`, `Reconciliation`, `Expansion` and `BrowserTree`
  are the registry of tree rows and the edits made to it, with rows as objects so that "the same row" means the same
  object. `BrowserSession` puts a connection and any run of edits before a change notice for the root.
- **Notification dedupe.** `Dedupe` is the watcher loop with its swept map.
- **Paths.** `Paths` states what the program's string tests on paths mean on path components, `CleanLaws` what
  cleaning does to "..", ".", doubled slashes and names. `TreeListing` is the order of a directory listing.
- **Hook merge.** `HookMerge` is the merge into a settings file as algebra over JSON trees.
- `Sequences` and `Wire` hold shared vocabulary.

I/O appears as parameters: read outcomes, resolved paths, process names, clock readings, write failures, fetch results,
the JSON codec, the working directory.

Where the code and what is said about it differ, the model follows the code:

- The comment on the fanotify decoder (internal/tap/fanotify_linux.go:30-31) says metadata_len is used to skip
  records; the code advances by event_len.
- When a read brings a malformed fanotify record, the loop drops the events decoded before it in the same call, and
  the descriptors they carry stay open. Where reads cut the stream then matters: `FanotifyStream.IndependentExactly`
  says for which streams it does not.
- The repository's README says that process names with blanks parse imperfectly. Such a line is dropped unless the
  text before its last word ends in a duration; then it is read as another record (`SpacedProcess.Exactly`).
- "Refresh tree" does not refresh the root's own list: web/app.js:575 looks for it among the direct children of
  `#tree`, while web/app.js:706-707 put it into `#treeContent` (web/index.html:32-38). Only a change notice for the
  root directory reconciles it (`BrowserTree.Page.RefreshAllExpanded`, witness `Expansion.StaleRoot`).
- The dedupe map is swept only by a notice that is passed on. "At most 1024 entries or none older than five seconds"
  therefore holds when a notice is passed on; a held-back one less than 200 ms later can find entries up to 5.2
  seconds old (`Dedupe.CacheIsBounded`, exact condition `Dedupe.BoundedExactly`, witness
  `Dedupe.HeldBackStepDoesNotSweep`).
- With the root directory "/" the tree endpoint serves only the root itself (`Paths.TreeRequestExact`) and the browser
  relates no path to the root (`Paths.RootHasNoRelatives`); the taps' test does handle "/"
  (`Paths.PathInIsComponents`).
- A session below a first component that starts with two dots is refused although it lies inside the root
  (`Paths.CwdInsideExact`).

## Model

| member | source | states |
|---|---|---|
| ReplaySafety.StepKeepsInv | internal/ui/hub.go:92-146 | every step of every producer and connection keeps the protocol invariant |
| ReplaySafety.EveryRunKeepsInv | internal/ui/server.go:183-241 | hence every interleaving of any length does |
| ReplayProtocol.RingMembership | internal/ui/hub.go:99-105 | an entry is among the last n stored ones iff it is stored and fewer than n were stored after it |
| ReplayTheorems.NoGap | internal/ui/server.go:183-217 | in every run, a stored event is in a client's snapshot iff stored before it and not evicted, is captured live iff broadcast while registered, so one stored before the client left is in the snapshot, captured or evicted; covered twice iff stored between registration and snapshot and not evicted |
| ReplayTheorems.SnapshotIsRingView | internal/ui/hub.go:122-134 | in every run a snapshot is the last n stored events in order, the view the ring buffer object returns |
| ReplayTheorems.DeliveryCount | internal/ui/server.go:202-234 | an event enters a client's queue at most twice, and exactly once per successful live offer plus once per snapshot position when nothing is pending |
| ReplayTheorems.PerClientOrder | internal/ui/hub.go:112-119 | a client's queue history interleaves, per producer, an in-order subsequence of its broadcasts with a prefix of the snapshot in ring order; only stored events are replayed; never more than 1024 frames queue |
| ReplayTheorems.LivesIncrease | internal/ui/hub.go:106-119 | live frames of one producer are in broadcast order |
| ReplayTheorems.Conservation | internal/ui/hub.go:92-120 | in every reachable state delivered, dropped and still pending offers add up to the captured client sets, and frames sent to the queues are the delivered offers plus replay pushes |
| ReplayTheorems.SendCompletes | internal/ui/hub.go:112-119 | in every reachable state a send that released the lock can finish on its own steps, with full queues and with clients that left meanwhile |
| ReplayLog.LogIsBegins | internal/ui/hub.go:92-110 | after every run the log has one entry per send begun, in order, with that send's producer, event and store flag |
| ReplayLog.SnapshotReplaysStored | internal/ui/hub.go:99-134 | in every run a snapshot is the last n events broadcast with the store flag before it, in order; transient ones are never replayed |
| ReplayLog.FramesAreSends | internal/ui/server.go:202-217 | every frame in a channel is a send of the run or a snapshot position, and those were sent with the store flag |
| ReplayLog.RegisteredFrom | internal/ui/hub.go:136-140 | the window in which a client is captured opens at the sends begun before its registration |
| ReplayLog.RegisteredUntil | internal/ui/hub.go:142-146 | and closes at those begun before it unregisters, whatever happens later |
| ReplayLog.OfferExactly | internal/ui/hub.go:112-119 | in every reachable state an offer adds its frame at the end of the queue, or, only with 1024 frames waiting, is lost and leaves the queue as it is; exactly one counter moves |
| ReplayLog.TakeIsFifo | internal/ui/server.go:226-234 | the writer takes the oldest frame |
| ReplayLog.PushIsNext | internal/ui/server.go:206-213 | a replay push needs room and adds the next snapshot position at the end |
| ReplayLog.AbortsWhenDone | internal/ui/server.go:211-215 | a replay is abandoned only after the reader finished |
| Hub.Hub.constructor | internal/ui/hub.go:30-45 | a new hub has an empty history and no clients; the ring needs at least one slot |
| Hub.Hub.Store | internal/ui/hub.go:99-105 | head is the number of stored events modulo the size, filled iff at least that many were stored, every slot holds the latest event of its residue |
| Hub.Hub.Send | internal/ui/hub.go:92-120 | every registered client with fewer than 1024 waiting frames gets the frame at the end of its queue, the others keep theirs, and the counters count exactly those; the history grows iff the store flag is set |
| Hub.Hub.CopyClients | internal/ui/hub.go:106-109 | the slice lists every registered client once, in any order |
| Hub.Hub.FanOut | internal/ui/hub.go:112-119 | each target's queue after its offer, and the two counters, in terms of the queues before and the capacity 1024 |
| Hub.Hub.Snapshot | internal/ui/hub.go:122-134 | both branches return the last min(n, size) stored events, oldest first, across the two copied segments |
| Hub.Hub.Register | internal/ui/hub.go:136-140 | adds the client, leaves ring and history alone |
| Hub.Hub.Unregister | internal/ui/hub.go:142-146 | removes the client, leaves ring and history alone |
| Hub.RoomOfSlice | internal/ui/hub.go:106-119 | whatever order the client map is copied in, as many of the slice as of the set have room |
| Fanotify.ParseEvents | internal/tap/fanotify_linux.go:34-56 | the loop computes the decoder's function: events, the undecoded suffix, or the bad length |
| Fanotify.ParseOfRecords | internal/tap/fanotify_linux.go:37-54 | any run of records followed by a partial or malformed one decodes to just those records |
| Fanotify.RecordsOfParse | internal/tap/fanotify_linux.go:37-54 | conversely every buffer is such a run, so the decoder's answer is the only one the format allows |
| Fanotify.EncodeDecode | internal/tap/fanotify_linux.go:38-52 | every event with a 32-bit fd and pid, sign included, and a 64-bit mask survives encoding and decoding, with any extra information bytes |
| Fanotify.ParseAppend | internal/tap/fanotify_linux.go:34-56 | parse(a + b) is the events of a and then parse(rest(a) + b) |
| Fanotify.PrefixParses | internal/tap/fanotify_linux.go:39-41 | a prefix of a stream without malformed records has none |
| FanotifyLayout.Layout | internal/tap/fanotify_linux.go:38-52 | event_len is the little-endian word at 0, the mask the double word at 8, fd and pid the signed words at 16 and 20 |
| FanotifyStream.ChunkIndependence | internal/tap/tap_linux.go:105-126 | however reads cut a stream without malformed records, events and carried-over bytes are those of one parse |
| FanotifyStream.IndependentExactly | internal/tap/tap_linux.go:105-126 | all cuts of a stream deliver the same events iff it has no malformed record, or it is malformed from its first header on and no complete record starts after that header |
| FanotifyStream.BarrenDelivers | internal/tap/tap_linux.go:120-126 | a stream of the second kind delivers nothing however it is cut; what is carried over starts at its beginning or after its first header |
| FanotifyStream.MalformedDependsOnCuts | internal/tap/tap_linux.go:120-125 | a stream with a good record before a malformed one has two cuts into reads of at most 25 bytes that deliver different events |
| FanotifyStream.LastRecordLost | internal/tap/tap_linux.go:120-125 | however the stream before was cut, a read that completes a record and brings a malformed header loses that record |
| FanotifyStream.RecordsKept | internal/tap/tap_linux.go:120-125 | however the stream before was cut, a read boundary before the malformed header keeps every record |
| FanotifyTap.Tap.Reassemble | internal/tap/tap_linux.go:106-126 | one read over the reused buffers delivers what decoding carried-over plus new bytes gives, with no aliasing between the carried-over slice and the window |
| FanotifyTap.Tap.Tests | internal/tap/tap_linux.go:133-171 | the filter's verdict on one event |
| FanotifyTap.OpOfMask | internal/tap/tap_linux.go:203-208 | an event is a write iff bit 1 (FAN_MODIFY) or bit 3 (FAN_CLOSE_WRITE) is set |
| FanotifyTap.Tap.Enter | internal/tap/tap_linux.go:128-160 | the descriptor is closed exactly once, whatever the verdict, and exactly the right counters move |
| FanotifyTap.Tap.Handle | internal/tap/tap_linux.go:128-175 | a kept event is written after the earlier ones, or its write failed and only it is missing |
| FanotifyTap.Tap.Turn | internal/tap/tap_linux.go:105-176 | one successful read: batch decoded and filtered in order, up to its end or to a failed write, or skipped on a decode error |
| FanotifyTap.Tap.Run | internal/tap/tap_linux.go:103-177 | over any run of read outcomes the events handled are those the reads deliver on values, or a prefix of them up to a failed write; interrupted reads are stutter steps |
| FanotifyTap.ReadsThatCount | internal/tap/tap_linux.go:111-117 | an interrupted read anywhere changes nothing that is read, a failed one ends it, and a successful one adds its bytes in place |
| FanotifyTap.RunTap | internal/tap/tap_linux.go:103-177 | the events handled are all delivered ones or those up to the first failed write; output is their in-order selection, short of that write; each of their descriptors is closed once in order; parsed = kept + dropped + excluded; without malformed records the delivered events are those of the stream |
| FanotifyTap.ForwardedExactly | internal/tap/tap_linux.go:133-171 | with the real path functions an event is unresolved iff its descriptor has no path, forwarded iff that path is absolute, lies in the watch directory and neither pid nor name is excluded; which of the others count as outside and which as excluded; the forwarded record, a write iff a modify or close-write bit is set |
| TapBooks.TallyCounts | internal/tap/tap_linux.go:128-160 | each counter counts its verdicts, and kept + dropped + excluded is all that were parsed |
| TapBooks.ForwardedAreKept | internal/tap/tap_linux.go:160-174 | what is forwarded are the records of the kept verdicts |
| TapBooks.KeptInOrder | internal/tap/tap_linux.go:128-175 | in the order of the events |
| TapBooks.AllKept | internal/tap/tap_linux.go:128-175 | and no kept one is left out |
| FsUsageGrammar.Unambiguous | internal/tap/parse.go:24-26 | two matches of a line agree on time, call, middle, duration, W, process and pid |
| FsUsageGrammar.TrimmedIsPreferred | internal/tap/parse.go:24-26 | of all matches the one whose arguments are trimmed is the one greedy and lazy groups pick |
| FsUsageGrammar.PreferredIsTrimmed | internal/tap/parse.go:24-26 | conversely the picked match has trimmed arguments unless they are all blank |
| FsUsageLine.ParseLineIsTheMatch | internal/tap/parse.go:32-66 | parsing by words from both ends gives an event iff the expression has a picked match with that outcome, and always that match's outcome |
| FsUsageLine.RoundTrip | internal/tap/parse.go:32-83 | a printed record is read back with its time, path, process and pid, even when the path holds blanks or duration-like text; refused iff the call is not kept or the pid overflows |
| FsUsageLine.PrintedParse | internal/tap/parse.go:32-66 | a printed record gives an event iff its call is kept and its pid fits an int, and every field of that event |
| FsUsageLine.RefusedExactly | internal/tap/parse.go:37-57 | a matched line gives no event iff its arguments hold no slash, its call is not kept, its pid exceeds 63 bits or hour, minute or second is out of range |
| FsUsageLine.CallsExactly | internal/tap/parse.go:91-125 | the operation of every call, group by group; all other calls are dropped |
| FsUsageLine.FractionExactly | internal/tap/parse.go:137-147 | the fraction of a second is read as nanoseconds, missing digits as zeros, digits after the ninth dropped |
| FsUsageLine.OpenIsWrite | internal/tap/parse.go:91-98 | an open of any of the four kinds is a write iff the first mode in parentheses, also one inside the path, has a W or a C |
| FsUsageLine.OpenModeFound | internal/tap/parse.go:127-133 | a mode is found wherever it stands if no other stands before it, whatever other parentheses do |
| FsUsageLine.OpenModeStands | internal/tap/parse.go:127-133 | conversely the answer is the first mode, or empty iff there is none |
| FsUsageLine.ClockReadsBack | internal/tap/parse.go:137-148 | a printed time of day is read back to the microsecond |
| SpacedProcess.Exactly | internal/tap/parse.go:24-66 | a printed record whose process name holds a blank gives no event iff the text before the last word ends in no duration, the pid overflows or the call is not kept; otherwise the event whose path swallows what stands before that duration, with the last word for the process |
| SpacedProcess.DroppedWithoutDuration | internal/tap/parse.go:24-36 | any line whose text before the last word does not end in a duration is dropped |
| SpacedProcess.NumberLater | internal/tap/parse.go:24-26 | a number behind the first part of the name, with or without a W, ends the swallowed path at that part |
| SpacedProcess.NumberFirst | internal/tap/parse.go:24-26 | a number at the start of the name ends it at the real duration and its W |
| SpacedProcess.NameIsWait | internal/tap/parse.go:24-26 | the name W on a line without a W is taken for the W, and the path stays |
| DarwinTap.Filter | internal/tap/tap_darwin.go:105-144 | one line's counters and the event to write |
| DarwinTap.Run | internal/tap/tap_darwin.go:104-162 | output is the in-order selection of the lines seen, short of the last one iff its write failed; the counters count the verdicts; which error ends the run |
| DarwinTap.JudgeExactly | internal/tap/tap_darwin.go:116-148 | for any line: unresolved iff it does not parse; otherwise outside, excluded or forwarded, decided on path components without the data volume, and the forwarded event |
| DarwinTap.ForwardedExactly | internal/tap/tap_darwin.go:116-143 | end to end: a printed record is forwarded iff its call is kept, its pid fits, its path without the data volume lies in the watch directory and nothing excludes it; the forwarded event |
| Dedupe.EvictionIsInvisible | internal/ui/server.go:109-124 | on a clock that does not run back, the swept map holds back exactly what an unbounded one would |
| Dedupe.EmissionsAreSpaced | internal/ui/server.go:114-117 | emissions of one key are at least 200 ms apart |
| Dedupe.SuppressedHasRecentEmission | internal/ui/server.go:114-116 | a held-back notice has an emission of its key less than 200 ms earlier |
| Dedupe.RateBound | internal/ui/server.go:103-117 | at most T / 200 ms + 1 emissions of a key in any closed interval of length T |
| Dedupe.CacheIsBounded | internal/ui/server.go:117-124 | at most 1024 entries or none older than five seconds when a notice was last passed on, less than 200 ms ago |
| Dedupe.BoundedExactly | internal/ui/server.go:114-124 | at the time of a step the bound of 1024 entries or five seconds holds iff the notice is passed on or the cache found was within it at that time |
| Dedupe.HeldBackStepDoesNotSweep | internal/ui/server.go:114-124 | witness that the five-second bound fails at a held-back step |
| Dedupe.Watcher.Observe | internal/ui/server.go:111-141 | the loop makes the hub calls that a map without eviction would make; a notice is held back iff its key was seen less than 200 ms ago, and then nothing changes; otherwise the map holds it, swept if it has more than 1024 entries, and for a file "dir/name" the calls are a transient refresh of dir and, unless it was removed, a stored write of the file |
| Dedupe.Watcher.Publish | internal/ui/server.go:127-140 | for a file "dir/name" exactly a transient "dirchange" of dir and then, for a create, write or rename but not for a remove, a stored "write" of the file |
| Dedupe.CallsExactly | internal/ui/server.go:127-164 | the same as a fact on values; directly below "/" the file's own path stands for its directory |
| Dedupe.Watcher.SweepInPlace | internal/ui/server.go:118-124 | deleting while ranging, in any order, removes exactly the entries over five seconds old |
| ClaudeLabel.OneTimerWhileWorking | web/app.js:135-155 | in every run an idle timer is pending iff the label is "working", and at most one is |
| ClaudeLabel.ReflectedWalk | web/app.js:174-202 | the tool counter is the pre/post walk minus its minimum since the last session start, so the exact number of open tools when posts never lead |
| ClaudeLabel.LabelIsFunctionOfHistory | web/app.js:145-214 | at any time the label is the one the hook history asks for, or the idle timer is overdue and it still says "working" |
| ClaudeLabel.DueIgnoresTimers | web/app.js:145-214 | that label depends on the hook events alone, not on when callbacks ran |
| ClaudeLabel.LabelByLastEvent | web/app.js:145-214 | with no timer overdue the label follows from the last event that matters: idle after a session start, waiting after a stop, else working while a tool is open or the event is under five seconds old, then thinking |
| ClaudeLabel.ThinkingIsNeverEarly | web/app.js:145-155 | however late timers run, "thinking" is never shown before it is due |
| ClaudeLabel.Page.StartIdleTimer | web/app.js:140-143 | arms one timer five seconds ahead |
| ClaudeLabel.Page.ClearIdleTimer | web/app.js:141-141 | clears the timer the handle names, if any |
| ClaudeLabel.Page.PingClaudeActive | web/app.js:135-143 | refines the ping of the state machine |
| ClaudeLabel.Page.CheckIdleOrReschedule | web/app.js:145-155 | refines the timer callback |
| ClaudeLabel.Page.HandleClaudeEvent | web/app.js:157-214 | refines the hook event step, phase by phase |
| Registry.KeysAreTree | web/app.js:641-664 | when registry and tree agree, the registered paths are exactly the root and the rows reachable through child lists |
| Registry.Descent | web/app.js:629-639 | whatever is registered below a row lies at or below one of its child rows |
| Reconciliation.InsertIsPlace | web/app.js:604-626 | the DOM calls of either branch put the row right behind the rows already placed, moving it if it was in the list |
| BrowserTree.Page.PurgeNode | web/app.js:629-639 | the registry loses exactly the path and everything below it, and the recursion ends |
| BrowserTree.Page.RemoveRows | web/app.js:591-598 | unlisted rows leave the list and their subtrees the registry; the others keep order and identity |
| BrowserTree.Page.MakeNode | web/app.js:641-664 | a fresh row registered unexpanded under its path |
| BrowserTree.Page.InsertRows | web/app.js:603-626 | the child names become the entry names in order, surviving names keep their row object |
| BrowserTree.Page.PutNext | web/app.js:610-624 | the insert or move is skipped only when the row is already in place |
| BrowserTree.Page.ReconcileChildren | web/app.js:584-627 | names equal the listing in order, surviving rows are the same objects with subtree and expansion state, gone subtrees leave the registry, nothing else changes, registry and tree agree |
| BrowserTree.Page.ToggleDir | web/app.js:682-702 | flips one directory, loading it the first time, also when the fetch fails; registry and tree agree |
| Expansion.ToggledExactly | web/app.js:682-702 | what that changes: the row's expansion alone, its children only on the first expansion, and then they show the fetched listing; every other row stays |
| BrowserTree.Page.LoadChildren | web/app.js:690-691 | the first load shows the listing |
| BrowserTree.Page.RefreshDir | web/app.js:557-567 | reconciles an open, loaded directory, does nothing otherwise or on a failed fetch |
| Expansion.ReconciledRows | web/app.js:603-626 | what a reconciled list is: one row per entry under its name, in order, the old row object where there was one |
| Expansion.ReconciledKeepsRoot | web/app.js:584-627 | reconciling never closes the root, and below it leaves the root's list alone |
| BrowserTree.Page.RefreshAllExpanded | web/app.js:569-582 | afterwards every open directory but the root shows its listing, in whatever order they are refreshed, and none was opened; the root list is unchanged, so up to date iff it was before |
| Expansion.StaleRoot | web/app.js:573-577 | a registry that agrees with its tree while its root list misses an entry of the directory |
| BrowserTree.Page.constructor | web/app.js:40-47 | nothing is registered before the first connection |
| BrowserTree.Page.RenderTreeRoot | web/app.js:704-715 | the root is registered open, as a directory with a list that shows the fetched listing, or an empty one when the fetch fails; registry and tree agree |
| BrowserTree.Page.OnConnect | web/app.js:66-83 | a connection to another root leaves a page with the root open that shows the whole tree, every directory registered and expanded, whatever it showed before; otherwise nothing changes |
| BrowserTree.Page.ExpandAll | web/app.js:720-749 | ends on every finite tree, toggles no directory twice, leaves every registered directory expanded; if what was loaded showed the tree, the directory rows are then exactly the directories of the tree, and the button shows "all expanded" iff the tree has one below its root |
| BrowserTree.Page.QueueChildren | web/app.js:734-743 | afterwards every unexpanded directory is queued |
| BrowserTree.Page.CollapseAll | web/app.js:751-761 | every directory row is collapsed, rows and children stay, registry and tree agree |
| BrowserTree.Page.IsFullyExpanded | web/app.js:763-772 | true iff there is a directory row and all are expanded |
| BrowserSession.Perform | web/app.js:557-582 | every click, button and refresh keeps registry and tree in agreement and the root open with its list |
| BrowserSession.NoticeAtRoot | web/app.js:557-567 | after a connection to a directory and any run of edits, a change notice for that directory leaves one row per entry in the root's list, in order |
| Expansion.ExpandedIsComplete | web/app.js:720-749 | if everything registered is expanded and shows the tree, every directory of the tree is registered |
| Expansion.RegisteredIsTreeDir | web/app.js:641-663 | conversely every registered directory is one of the tree |
| Expansion.ToggledStaysSynced | web/app.js:682-702 | expanding keeps loaded child lists showing the tree |
| Expansion.ToggledShrinks | web/app.js:729-744 | each toggle shrinks the set of paths still to expand |
| Expansion.ReconcileUpdates | web/app.js:584-627 | reconciling one directory brings it up to date, leaves others up to date and opens nothing |
| Paths.CleanAbsolute | internal/tap/tap.go:65-74 | cleaning an absolute path gives the clean path of its resolved components |
| Paths.CleanIdempotent | internal/tap/tap.go:65-74 | cleaning is idempotent on every string, relative ones included |
| CleanLaws.UpTakesBack | internal/tap/tap.go:65-74 | in an absolute path ".." cancels the name before it, whatever follows |
| CleanLaws.UpAtRoot | internal/tap/tap.go:65-74 | at the root ".." goes nowhere |
| CleanLaws.DotAndSlashVanish | internal/tap/tap.go:65-74 | "." and doubled slashes disappear |
| CleanLaws.NameIsAppended | internal/tap/tap.go:65-74 | a name is kept, whatever follows |
| CleanLaws.NameEnds | internal/tap/tap.go:65-74 | a clean path, a slash and a name clean to the path of the longer list of names |
| CleanLaws.RelativeUp | internal/tap/tap.go:65-74 | a relative path of names is clean, and ".." cancels its last name |
| CleanLaws.RelativeBack | internal/tap/tap.go:65-74 | a relative path that comes back to its start cleans to the empty string |
| Paths.PathInIsComponents | internal/tap/tap.go:57-59 | the prefix test on clean paths holds iff the directory's components are a prefix, "/" included |
| Paths.RelativeIsOutside | internal/tap/tap.go:57-74 | text without a leading slash, once cleaned, is in no absolute directory |
| Paths.TreeRequestExact | internal/ui/tree.go:34-50 | the endpoint serves exactly the relative queries resolving to the root or below; for "/" only the root |
| CleanLaws.ClimbingIsRefused | internal/ui/tree.go:40-50 | ".." is refused below any root but "/" |
| CleanLaws.NamesAreServed | internal/ui/tree.go:40-50 | a query of names is served as the directory of those names below the root; below "/" it is refused |
| CleanLaws.ClimbingBack | internal/ui/tree.go:40-50 | a query that climbs out is served iff its next name leads back into the root, and then as what lies behind that name |
| Paths.CwdInsideExact | internal/ui/claudehook.go:59-75 | a session is inside iff its directory resolves to the root or below, except below a first component starting with ".." |
| CleanLaws.SessionByNames | internal/ui/claudehook.go:59-75 | a session below the root is inside unless its first name starts with two dots; one in the parent written "root/.." is not |
| Paths.ParentDir | internal/ui/server.go:144-156 | the scan finds the text before the last slash |
| Paths.PathViewsCommute | web/app.js:527-555 | the relative form of the parent is the parent of the relative form, so both refreshes hit one directory |
| CleanLaws.RelativeByNames | web/app.js:527-533 | the relative form of a path is the names below the root, and there is none outside |
| Paths.RootHasNoRelatives | web/app.js:527-533 | with root "/" no other path is related to the root |
| Paths.NormalizeIsComponents | internal/tap/tap_darwin.go:183-188 | a clean path strictly below /System/Volumes/Data loses exactly these three components, others stay, so the result is clean |
| Paths.YForPath | web/app.js:375-385 | the loop ends and computes the nearest visible ancestor-or-self |
| Paths.NearestRowIsLongestPrefix | web/app.js:370-385 | by components that is the longest visible prefix |
| Paths.RowIffSomeVisible | web/app.js:370-385 | there is an answer iff some prefix is visible |
| TreeListing.BeforeIsTotal | internal/ui/tree.go:60-65 | the comparator orders any two different entries one way |
| TreeListing.ListingIsUnique | internal/ui/tree.go:56-65 | whatever the sort algorithm and the reading order, the listing is the same |
| TreeListing.ListingOrder | internal/ui/tree.go:60-65 | directories first, names strictly increasing in both parts |
| TreeListing.LessExactly | internal/ui/tree.go:64-64 | names are compared by their first difference, a prefix first |
| HookMerge.EntryReferencesURL | main.go:184-204 | true iff some hook of the entry has a command containing the URL, whatever shape the JSON has |
| HookMerge.MergeInto | main.go:148-167 | the merged tree does not depend on the order in which the events are ranged over |
| HookMerge.MergeEvent | main.go:149-165 | the entries that do not reference the URL, then ours |
| HookMerge.MergeExactly | main.go:143-167 | for every event of ours the merged tree holds what the settings held without the entries that reference the URL, then ours; anything of another shape counts as empty |
| HookMerge.ReferencesExactly | main.go:184-204 | an entry references a URL iff it is an object whose hooks array has an object with a command string that has the URL in it, at any position in the array |
| HookMerge.BuiltExactly | main.go:99-116 | our entries: seven events, one entry each with one command and a timeout of five, a match-all matcher on the two tool events only |
| HookMerge.CommandExactly | main.go:67-69 | the URL and the command line of an address |
| HookMerge.ApplyHooks | main.go:121-182 | by what the file holds: content that is no JSON object is refused and the file left alone, an unreadable one is an error, a missing or empty one and JSON null merge into empty settings, an object into just its fields; nothing is written when the result is what the file holds; which disk failures end the call |
| HookMerge.KeptInOrder | main.go:150-157 | exactly the non-referencing entries are kept, in their order |
| HookMerge.OthersUntouched | main.go:143-167 | other settings and other events are untouched |
| HookMerge.MergeIsIdempotent | main.go:143-167 | merging twice equals merging once iff every own entry references the URL |
| HookMerge.LaterMergeAbsorbs | main.go:143-167 | A after B after A equals A after B, if A's entries reference A's URL |
| HookMerge.BothInstallationsSurvive | main.go:148-166 | if B's entries do not mention A's URL, both installations are in the result, in order |
| HookMerge.BuiltHooksReference | main.go:99-116 | our entries reference a URL iff our command contains it |
| HookMerge.CommandsAreTold | main.go:150-157 | commands built for two addresses without slashes are told apart: one contains the other's URL iff the addresses are equal |
| HookMerge.ApplyTwice | main.go:121-182 | applying again after a call that did not fail changes nothing, even on a disk that refuses writes; a failed call fails again the same way |

## Left out

- HTTP and WebSocket transport, deadlines, pings, process spawning, signals, flag parsing: I/O plumbing.
- JSON text of records, and the early return or skip when json.Marshal fails on one: library behaviour. In the hook
  merge the codec is a parameter.
- The event counter's increment before the lock is taken is part of `Hub.Hub.Send`, not a separate protocol step.
- Kernel calls, readlink, /proc reads: path and process name are parameters of each event. The process-name cache is not
  part of this model.
- The 32-bit conversion `int(eventLen)` on a 32-bit platform, where lengths over 2^31 would turn negative.
- Fetches are atomic: a fetch interleaved with another edit of the tree is not modelled, and nothing is claimed there.
- The error text that a failed fetch puts into a child list: it is no row and no later step treats it as one.
- Fields of the Claude panel that the label does not depend on: goal, action, subagent, the log of events, auto-pause.
- isDir of a surviving row: rows are reused by name only, so a file that became a directory keeps its old row.
- The regular expression engine is represented by the matches it may return and their priority; invalid UTF-8 and
  non-ASCII blanks are outside the model. Daylight-saving shifts are inside the parameter that dates a time of day.
- sort.Slice is any function that returns a sorted permutation; reading the directory is a parameter.
- Debug samples, raw dumps and log lines of the taps.
- HookMerge.ApplyHooks: a marshalling error has no outcome, because JSON trees always marshal; a failed write is taken
  to leave the file as it was. expandHome, and an own event with no entries (encoded as null by the source).
- FanotifyStream.IndependentExactly: the cuts it compares may use reads of any length; on a stream longer than the
  64 KiB window the cut that shows a difference after a malformed first header may need a longer read.
- SpacedProcess.Exactly: the columns and the name hold no newline, as in every line the scanner delivers.
- A second registration of the root while rows are registered: the source clears the registry first.
- Table look-ups: tool summaries, phase names, file-system names, exclude lists.
