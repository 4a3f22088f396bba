# A verified model of the agent-os client

This project models the parts of the Rust client crate of agent-os that carry the most logic, and the
JSON string encoder of the execution crate, in Dafny, and proves what they promise.

* **Cron** (`Calendar`, `CronMatching`, `CronSearch`, `CronBound`, `CronFifth`, `CronYear`, `CronParse`, `CronPrint`,
  `OneShot`, `CronSchedule`, `CronOverlap`): the proleptic Gregorian calendar built from a successor function,
  the `L`, `W` and `#` day rules, the bounded next-run search with its minute-stepping path, the field
  grammar with a printer for whole expressions, the one-shot recogniser, and the overlap state machine under
  an arbitrary schedule driver. The local clock is a fixed whole-second offset from UTC and instants are
  nanoseconds. Day fields are called reliable when both are
  unrestricted or a restricted one is met by some day of a listed month in every year. An expression is
  called dependable when its day fields are reliable, or it asks for a fifth weekday of a month other than
  February and, if the search goes by seconds, the days it names are never more than 732 days apart in any
  three years a calendar can show.
* **Sessions** (`EventRing`, `SessionRequests`, `Permissions`, `SessionLifecycle`): each is a transition
  system whose steps are the stretches of code between awaits, in any interleaving, with a class whose
  methods are proved to make exactly those steps. Each object carries the trace of its steps and is proved
  to be in the state that run leads to, so the theorems about runs hold of the objects. Request replies,
  permission replies, timers, cancels and closes race freely.
* **Filesystem** (`Paths`, `Kernel`, `Links`, `FsOps`, `FsDelete`, `FsMove`, `Listing`): path normalisation and
  guards, `mkdirp`, recursive copy, delete and move, and the breadth-first listing, over a kernel that is a
  finite map from locations to nodes. Every kernel call may report an error, before or after it took effect.
  Copies and moves go to free and to existing targets alike, the source itself and places inside it among them. Deletes
  follow links as the kernel resolves them.
* **Processes** (`ProcessForest`, `ProcessTable`): the renamed, sorted process list and the forest built
  from it, on lists with repeated pids and cyclic parents too.
* **Transport** (`Transport`): request and response correlation, with wrapping 64-bit counters, and
  disconnect.
* **JSON** (`Json`): the string, array and map encoders against a decoder written from sections 4, 5 and 7 of
  RFC 8259.

`Core`, `Text` and the modules `Decimal`, `Ordered` and `Regex` hold what the others share.

Clocks, identifiers chosen by the caller, replies of the peer, the schedule driver, kernel faults and the
order in which concurrent maps are scanned are inputs or steps, never fixed.

Where comments and code disagree, the model follows the code:

* A comment says that writing a file does not create parent directories
  (`crates/client/src/fs.rs:687`); the kernel call behind it does (`crates/kernel/src/vfs.rs:905`).
* A comment says that method markers are never config option ids (`crates/client/src/session.rs:494-495`);
  nothing enforces it, and `SessionRequests.OnlyPromptsCancelledIff` states what follows.
* Registering a cron id again arms the new timer before the old one is cancelled
  (`crates/client/src/cron.rs:1085-1108`), and a run of the old job may still be active;
  `CronOverlap.NoOverlapIffIdle` states what follows.

## Model

| member | source | states |
|---|---|---|
| Calendar.WeekdayByDate | crates/client/src/cron.rs:788-790 | counting days from the epoch gives the weekday that the month-table rule computes from year, month and day, on every date |
| CronMatching.LastDayIsMonthLength | crates/client/src/cron.rs:793-801 | the day before the next month's first is the month's length, in every month of every year |
| CronMatching.ResolvedWeekdayIsNearest | crates/client/src/cron.rs:807-836 | `<n>W` resolves to a day of the month that is the one and only Mon-Fri day nearest to the clamped target |
| CronMatching.NearestWeekdayLaw | crates/client/src/cron.rs:807-836 | a date matches `<n>W` exactly when it is that nearest workday of its month |
| CronMatching.OccurrenceIndexLaw | crates/client/src/cron.rs:773-782 | `(day-1)/7+1` is the number of times the weekday has come up in the month so far |
| CronMatching.LastOccurrenceLaw | crates/client/src/cron.rs:762-772 | a week later lies in another month exactly on the last occurrence of a weekday in its month |
| CronMatching.MatchesExactly | crates/client/src/cron.rs:716-785 | an instant matches exactly when its hour, minute and second are listed ones, read off the seconds of the day, and its date has a listed month and year and meets the day rule, where `L`, `W`, `#` and the choice between the two day fields are said by counting days of the month |
| CronSearch.Scan | crates/client/src/cron.rs:684-713 | the tick loop returns the first matching local second, skipping none in either step mode, or has seen that none up to its last tick matches; `MatchesExactly` says what matching is |
| CronSearch.NextAfter | crates/client/src/cron.rs:681-714 | the result is the least whole-second instant strictly after the argument whose local clock reads a listed hour, minute and second on a day the expression names; there is none exactly when no such instant comes within the tick bound |
| CronBound.DayWithinAYear | crates/client/src/cron.rs:749-785 | with reliable day fields some day of a listed month matches within 396 days of any day |
| CronBound.FiresWithin397Days | crates/client/src/cron.rs:681-714 | for every expression without year field and with reliable day fields, some firing instant lies within the search bound and less than 397 days ahead, in both step modes |
| CronBound.UnreliableExhausted | crates/client/src/cron.rs:681-714 | with unreliable day fields that do not ask for a fifth weekday outside February there is a start from which the search finds nothing |
| CronFifth.FifthWithinSixYears | crates/client/src/cron.rs:773-782 | a fifth occurrence of a given weekday in a given month other than February is never more than 2192 days away |
| CronFifth.FifthFiresByMinutes | crates/client/src/cron.rs:681-714 | so a search by minutes for one always succeeds |
| CronFifth.HitByWindow | crates/client/src/cron.rs:749-785 | which days such an expression names in three years depends only on its months, the weekday that begins them and which of them is a leap year |
| CronFifth.DenseFires | crates/client/src/cron.rs:681-714 | a search by seconds always succeeds when no two neighbouring days it names are more than 732 days apart |
| CronFifth.SparseExhausted | crates/client/src/cron.rs:681-714 | and otherwise there is a start from which it finds nothing |
| CronFifth.AlwaysFoundIffDependable | crates/client/src/cron.rs:681-714 | for every well-formed expression without a year field, in both step modes, the bounded search succeeds from every start if and only if the expression is dependable |
| CronYear.YearsMissed | crates/client/src/cron.rs:681-747 | with a year field, a search whose ticks run through no listed year finds nothing |
| CronYear.WholeYearFound | crates/client/src/cron.rs:681-747 | with reliable day fields, a listed year that lies wholly within the ticks is found |
| CronYear.ByYearFoundIff | crates/client/src/cron.rs:681-747 | an expression restricted by year alone is found if and only if a listed year lies between the year of the first tick and that of the last |
| CronYear.FarYearMissed | crates/client/src/cron.rs:695-714 | with reliable day fields and only years more than seven ahead the search finds nothing although a run comes |
| CronYear.Year2099Missed | crates/client/src/cron.rs:695-714 | in particular 2099, from any instant before 2092 |
| CronParse.WeekdayTokens | crates/client/src/cron.rs:950-961 | a token yields a weekday exactly when it is that day's English three-letter name in any case or its numeral, 7 standing for Sunday too |
| CronParse.MonthTokens | crates/client/src/cron.rs:1031-1044 | a token yields a month exactly when it is that month's three-letter name in any case or its numeral |
| CronParse.ParseFieldPart | crates/client/src/cron.rs:981-1028 | the step loop appends exactly the terms of the part's range, and fails exactly on a malformed part |
| CronParse.ParseParts | crates/client/src/cron.rs:858-864 | the parts loop fails exactly when some part is malformed and otherwise collects the union of the parts |
| CronParse.ParseField | crates/client/src/cron.rs:848-871 | a field yields the sorted union of its parts without repeats, all values for a question mark, and an error for a malformed or empty one |
| CronParse.UnionMeaning | crates/client/src/cron.rs:981-1028 | a list stands for exactly the values some part's stepped range reaches, and is rejected exactly when some part is malformed |
| CronParse.FieldValuesInBounds | crates/client/src/cron.rs:848-871 | parsed values are non-empty, strictly ascending and within the field's bounds |
| CronParse.DomFieldShape | crates/client/src/cron.rs:875-898 | a parsed day-of-month field is `L`, a `W` target from 1 to 31, or a non-empty list from 1 to 31 |
| CronParse.FoldSundayShape | crates/client/src/cron.rs:939-947 | folding gives, in ascending order, exactly the days of the list with 7 replaced by 0 |
| CronParse.DowFieldShape | crates/client/src/cron.rs:902-936 | a parsed day-of-week field is a last weekday, an n-th weekday with n from 1 to 5, or a non-empty list from 0 to 6 |
| CronParse.ParsedIsWellFormed | crates/client/src/cron.rs:608-676 | every parsed expression has non-empty fields within bounds, and a year field exactly when there are seven words; `CronPrint.CronRoundTrip` says which values they are |
| CronParse.ListRoundTrip | crates/client/src/cron.rs:848-871 | printing any ascending list within bounds and parsing it gives the list back |
| CronPrint.PartRoundTrip | crates/client/src/cron.rs:981-1028 | a printed part, with or without step, parses to the range it was printed from if that fits the bounds and is rejected otherwise |
| CronPrint.FieldRoundTrip | crates/client/src/cron.rs:848-871 | a printed field parses to exactly the values its parts stand for, ascending |
| CronPrint.DomRoundTrip | crates/client/src/cron.rs:875-898 | a printed day-of-month field, `L` and `nW` included, parses back |
| CronPrint.DowRoundTrip | crates/client/src/cron.rs:902-936 | a printed day-of-week field, `wL` and `w#n` included, parses back, with 7 as Sunday |
| CronPrint.CronRoundTrip | crates/client/src/cron.rs:608-676 | a printed expression of 5, 6 or 7 words parses to its meaning: every word to its own field, the second 0 when there is none, the year when there is one, and a day field restricted exactly when it is not a bare star or question mark |
| CronPrint.ParsedRoundTrip | crates/client/src/cron.rs:608-676 | every expression the parser returns can be written down and parsed back to itself |
| OneShot.TakeDigits | crates/client/src/cron.rs:390-398 | succeeds exactly when the next n characters are digits and then stands behind them |
| OneShot.ZoneToEnd | crates/client/src/cron.rs:461-482 | accepts exactly the strings of the optional zone pattern up to the end |
| OneShot.GreedyFraction | crates/client/src/cron.rs:448-458 | taking fraction digits greedily, three at most, loses no match of the pattern |
| OneShot.FractionToEnd | crates/client/src/cron.rs:448-482 | accepts exactly optional fraction then zone |
| OneShot.SecondsToEnd | crates/client/src/cron.rs:443-482 | accepts exactly optional seconds then zone |
| OneShot.TimeToEnd | crates/client/src/cron.rs:425-482 | accepts exactly the optional time of day up to the end |
| OneShot.LooksLikeOneShot | crates/client/src/cron.rs:381-483 | accepts exactly the strings of the documented regular expression |
| OneShot.OneShotIsShort | crates/client/src/cron.rs:381-483 | no accepted string has more than two whitespace-separated words |
| OneShot.OneShotIsInked | crates/client/src/cron.rs:381-483 | no accepted string starts or ends with whitespace |
| CronSchedule.GrammarsDisjoint | crates/client/src/cron.rs:608-636 | no string of the one-shot pattern parses as a cron expression |
| CronSchedule.DispatchOrderIrrelevant | crates/client/src/cron.rs:523-536 | trying cron first gives the same outcome as trying one-shot first, on every string |
| CronSchedule.ScheduledExactly | crates/client/src/cron.rs:523-536 | a schedule gives an expression exactly if the parser gives it, before trimming and without the look at the one-shot pattern |
| CronSchedule.OneShotScheduled | crates/client/src/cron.rs:523-536 | a timestamp of the one-shot pattern gives its instant however it is padded with whitespace |
| CronSchedule.PrintedIsScheduled | crates/client/src/cron.rs:523-536 | a printed expression is scheduled as its meaning |
| CronSchedule.ParseSchedule | crates/client/src/cron.rs:523-536 | a schedule is a cron schedule exactly if the cron grammar accepts the whole text, and then for the expression it parses to; otherwise it is the instant of the trimmed text if that fits the one-shot pattern, or an error with the original text |
| CronSchedule.ParsedAlwaysFoundIffDependable | crates/client/src/cron.rs:608-714 | for every parsed expression without a year field the search always succeeds if and only if the expression is dependable |
| CronOverlap.RunKeeps | crates/client/src/cron.rs:216-299 | in every run of the manager every fire is started, skipped, coalesced, dropped, queued or deferred, every started run is ended or active, and for ids registered once `running`, `queued`, the run count and the at-most-one rule are accurate |
| CronOverlap.EndsAreTold | crates/client/src/cron.rs:262-299 | in every run the completions told are the runs that ended well and the errors told the runs that failed |
| CronOverlap.FireDuringRun | crates/client/src/cron.rs:216-299 | a fire during a run starts a second run at once under allow, one after the run has ended under queue, and none under skip |
| CronOverlap.QuietWhileUnregistered | crates/client/src/cron.rs:246-254 | while an id is not registered no step whatever emits a Fire for it |
| CronOverlap.NoFireAfterStop | crates/client/src/cron.rs:181-197 | after cancel or dispose there is no Fire for the id until it is registered again, whatever driver, active and deferred runs do |
| CronOverlap.AllowFlagCanLie | crates/client/src/cron.rs:283-291 | under allow the running flag can be down while a run is active |
| CronOverlap.ReRegisteringCanOverlap | crates/client/src/cron.rs:1085-1108 | registering a skip job again during a run lets two runs overlap |
| CronOverlap.NoOverlapIffIdle | crates/client/src/cron.rs:1085-1108 | after a registration under skip or queue there is never more than one run until the next registration if and only if no run was active when it was made |
| CronOverlap.CronManager.Conserves | crates/client/src/cron.rs:216-299 | every manager object is in a state for which all of `RunKeeps` holds |
| CronOverlap.CronManager.ScheduleCron | crates/client/src/cron.rs:1085-1108 | replaces any job of the id by a fresh one |
| CronOverlap.CronManager.StartJob | crates/client/src/cron.rs:216-259 | skips, queues, drops or starts a run up to its await |
| CronOverlap.CronManager.OnDriverFire | crates/client/src/cron.rs:1074-1081 | a driver fire is one execution |
| CronOverlap.CronManager.OnDeferredTurn | crates/client/src/cron.rs:293-298 | a spawned re-run begins as one execution |
| CronOverlap.CronManager.FinishJob | crates/client/src/cron.rs:262-299 | emits the closing event, clears running, and defers one re-run if one was queued |
| CronOverlap.CronManager.CancelJob | crates/client/src/cron.rs:181-185 | forgets the job |
| CronOverlap.CronManager.DisposeAll | crates/client/src/cron.rs:191-197 | forgets all jobs |
| EventRing.TopOfUnion | crates/client/src/session.rs:411-424 | cutting a set to its highest 1024 keys does not change the highest 1024 keys of a later union |
| EventRing.MergeRefines | crates/client/src/session.rs:411-424 | merging a batch into the bounded ring is appending it to the unbounded log and reading off its newest entries |
| EventRing.HighestAdvances | crates/client/src/session.rs:428-437 | the acknowledged number stays the maximum of -1 and every number ever merged |
| EventRing.NextSynthetic | crates/client/src/session.rs:440-446 | a synthetic number is negative and below everything in the ring |
| EventRing.RunRefines | crates/client/src/session.rs:411-446 | after any series of operations the ring is the 1024 highest-numbered entries of the last-writer-wins map of everything merged, and the acknowledged number its maximum |
| EventRing.RingHolds | crates/client/src/session.rs:411-424 | after any series of operations an event is in the ring exactly if it was the last one merged under its number and fewer than 1024 greater numbers were ever merged |
| EventRing.LogGrows | crates/client/src/session.rs:411-446 | a sync merges its events, a notification itself, and a synthetic notification one event below zero and below everything in the ring |
| EventRing.BatchingIrrelevant | crates/client/src/session.rs:411-424 | two series with the same log leave the same ring and number, however they were batched |
| EventRing.RingShape | crates/client/src/session.rs:411-424 | the ring is strictly ascending and at most 1024 long |
| EventRing.HighestMonotone | crates/client/src/session.rs:524-540 | no operation lowers the acknowledged number and a synthetic one never moves it |
| EventRing.SyntheticRetention | crates/client/src/session.rs:729-748 | a synthetic event goes to the front of a ring with room and leaves a full one as it was |
| EventRing.MergeInto | crates/client/src/session.rs:411-424 | both loops go through one map and keep the newest entries |
| EventRing.DecodedKeeps | crates/client/src/session.rs:667-688 | the decoded events are exactly those of the state response that decode, in their order, with their notifications and their numbers read as signed |
| EventRing.SignedReading | crates/client/src/session.rs:667-688 | the number read is the one in the signed 64-bit range that differs from the unsigned one by a multiple of 2^64 |
| EventRing.SessionEntry.MergeSequencedEvents | crates/client/src/session.rs:411-424 | the ring becomes the merge, the log grows by the batch |
| EventRing.SessionEntry.Advance | crates/client/src/session.rs:428-437 | the number becomes the maximum of itself and the ring's last number |
| EventRing.SessionEntry.SyncSessionState | crates/client/src/session.rs:667-688 | a state response merges its decodable events, with unsigned numbers read as signed |
| EventRing.SessionEntry.RecordSessionNotification | crates/client/src/session.rs:519-540 | one notification is merged and acknowledged |
| EventRing.SessionEntry.RecordSynthetic | crates/client/src/session.rs:729-748 | a notification is recorded under the next synthetic number |
| EventRing.SessionEntry.Acknowledged | crates/client/src/session.rs:850-858 | what is sent is the greatest non-negative number ever merged into this entry, and nothing exactly when there was none |
| SessionRequests.RunConsistent | crates/client/src/session.rs:894-990 | in every reachable state the requests with an open resolver are exactly those pending in their live session |
| SessionRequests.StepFinal | crates/client/src/session.rs:934-950 | an answer, once given, never changes, and only waking the request gives one, the resolver's word before the sidecar's |
| SessionRequests.RunFinal | crates/client/src/session.rs:934-950 | over whole runs each request gets at most one answer, and a decided resolver fixes it |
| SessionRequests.ClosedForGood | crates/client/src/session.rs:1349-1367 | every request pending at close gets the closed response and nothing else in any continuation |
| SessionRequests.CancelledForGood | crates/client/src/session.rs:1307-1345 | if no config key is shaped like a marker, every prompt pending at a cancel gets the cancelled answer and nothing else in any continuation |
| SessionRequests.RepliedIsAnswered | crates/client/src/session.rs:934-950 | the first reply of the sidecar is what the request is woken to in every continuation in which its resolver has said nothing |
| SessionRequests.NoneLeftHanging | crates/client/src/session.rs:934-950 | a woken request stays unanswered exactly while it is pending in a live session with no reply |
| SessionRequests.MarkersExact | crates/client/src/session.rs:1307-1345 | the stored marker ids are exactly the pending ids, and cancel reads off exactly the pending prompts |
| SessionRequests.RunMarked | crates/client/src/session.rs:910-921 | if no config key is shaped like a marker, markers and pending ids agree in every reachable state and only prompts are ever cancelled |
| SessionRequests.MarkerKeyBreaks | crates/client/src/session.rs:1041-1074 | for every config key shaped like a marker there is a run in which every fallback follows its own answered request and a request that is no prompt is cancelled |
| SessionRequests.FirstMarkerBreaks | crates/client/src/session.rs:1041-1074 | such a key, spelled out |
| SessionRequests.OnlyPromptsCancelledIff | crates/client/src/session.rs:1307-1345 | only prompts are cancelled in every run the client can make with a config key if and only if the key is not shaped like a marker |
| SessionRequests.ResolveEach | crates/client/src/session.rs:1326-1344 | the shared loop takes out each listed resolver still there, answers through it and removes its marker |
| SessionRequests.SessionTable.RegisterSession | crates/client/src/session.rs:1141-1159 | registering a live id keeps the old entry |
| SessionRequests.SessionTable.StaysConsistent | crates/client/src/session.rs:894-990 | every table object is consistent, and its markers exact if no config key was shaped like one |
| SessionRequests.SessionTable.DropSession | crates/client/src/session.rs:1161-1167 | a failed hydration drops the session and its resolvers |
| SessionRequests.SessionTable.SendSessionRequest | crates/client/src/session.rs:894-921 | takes a fresh id and stores resolver and marker, or fails on an unknown session |
| SessionRequests.SessionTable.CleanupPendingResolver | crates/client/src/session.rs:982-990 | drops the slot and the marker |
| SessionRequests.SessionTable.WakeRequest | crates/client/src/session.rs:934-950 | answers from the resolver first, from the sidecar second, cleaning up either way; without marker-shaped config keys only a prompt gets cancelled |
| SessionRequests.SessionTable.ReceiveReply | crates/client/src/session.rs:931-948 | the first reply of the sidecar is kept for the request's next wake |
| SessionRequests.SessionTable.ApplyConfigFallback | crates/client/src/session.rs:714-727 | stores the value under the matching option id and the category |
| SessionRequests.SessionTable.CancelPendingPromptRequests | crates/client/src/session.rs:1307-1345 | answers the requests marked as prompts with cancelled and says whether there was one |
| SessionRequests.SessionTable.AbortPendingSessionRequests | crates/client/src/session.rs:1349-1367 | answers all pending requests of the session with the closed response |
| SessionRequests.SessionTable.CloseSessionInternal | crates/client/src/session.rs:1421-1449 | aborts and removes the session |
| Permissions.RunKeeps | crates/client/src/session.rs:1699-1759 | in every reachable state each slot belongs to one open delivery and settled values are Reject or what was sent |
| Permissions.StepFinal | crates/client/src/session.rs:1736-1758 | a step fills an open slot exactly when it carries a reply for it, and only waking a delivery settles it |
| Permissions.SettledForGood | crates/client/src/session.rs:1744-1758 | a delivery settles once: nothing later changes its value or its slot |
| Permissions.SlotWasFilled | crates/client/src/session.rs:1503-1528 | a filled slot holds a reply some step sent while the slot was pending |
| Permissions.SettledValue | crates/client/src/session.rs:1699-1759 | the settled value is Reject or such a reply, and no slot for the delivery remains |
| Permissions.SentIsSettled | crates/client/src/session.rs:1744-1758 | a reply sent to an open slot is what the delivery settles to in every continuation, unless its timer has elapsed too and is taken first |
| Permissions.DeliveredExactly | crates/client/src/session.rs:1699-1730 | a fresh delivery is rejected at once exactly when there is no session or subscriber, and waits for a reply exactly when there is one and no other delivery waits under its id |
| Permissions.SaidUntilBridged | crates/client/src/session.rs:280-284 | the first word a responder was given is the only one its bridge can pass on |
| Permissions.SettlesWhenReady | crates/client/src/session.rs:1744-1758 | a woken delivery settles exactly when its slot is decided or its timer has elapsed |
| Permissions.ClosedRejects | crates/client/src/session.rs:1372-1382 | a request pending at close settles to Reject in every continuation |
| Permissions.InterferenceExactly | crates/client/src/session.rs:1736-1756 | a step of one delivery changes another exactly when its timer is taken although its slot was decided, or its bridge passes on what was said, while its id is in use by the other |
| Permissions.WakingDoesNotInterfere | crates/client/src/session.rs:1744-1758 | with distinct outstanding ids waking a delivery changes no other |
| Permissions.LateBridgeAnswersAnother | crates/client/src/session.rs:1736-1743 | distinct outstanding ids do not suffice for the bridge: that of a timed-out delivery answers a later one with the same id |
| Permissions.NoReuseNoInterference | crates/client/src/session.rs:1736-1758 | while no id is used twice no step of a delivery changes another |
| Permissions.FilledExactly | crates/client/src/session.rs:1503-1528 | a pending slot is filled exactly by a host reply with its id or the bridge of a delivery with its id whose responder was used |
| Permissions.OwnReplyOnly | crates/client/src/session.rs:1699-1759 | over any run in which no id is used twice a settled value is Reject, a host reply to the id, or what the delivery's own responder said |
| Permissions.RejectPendingReplies | crates/client/src/session.rs:1372-1382 | removing the stored senders one by one drops every open slot |
| Permissions.PermissionTable.DeliverPermissionRequest | crates/client/src/session.rs:1711-1730 | stores a slot unless one is taken, and rejects at once without session or subscriber |
| Permissions.PermissionTable.RespondPermission | crates/client/src/session.rs:1503-1528 | resolves exactly the stored slot of the id |
| Permissions.PermissionTable.RespondThrough | crates/client/src/session.rs:280-284 | the first use of a responder decides what it says, later ones change nothing |
| Permissions.PermissionTable.RunBridge | crates/client/src/session.rs:1736-1743 | passes what the responder said to the slot stored under the id |
| Permissions.PermissionTable.ElapseTimer | crates/client/src/session.rs:1746-1751 | the timer of one delivery becomes ready |
| Permissions.PermissionTable.WakeDelivery | crates/client/src/session.rs:1748-1758 | settles by slot or timer: to the reply that was sent to it unless the timer is taken first, and never but when ready; without reuse of ids the answer is Reject, a host reply or the own responder's |
| Permissions.PermissionTable.CloseSession | crates/client/src/session.rs:1372-1382 | drops all slots |
| SessionLifecycle.RunKeeps | crates/client/src/session.rs:1133-1168 | in every reachable state closed ids are distinct, at most 2048 and disjoint from live sessions |
| SessionLifecycle.LiveOrQueued | crates/client/src/session.rs:1421-1449 | a session whose last registration was not undone by a failed hydration is live, or among the closed ids with no more later ones behind it than sessions closed since it was last live, as long as these are fewer than 2048 |
| SessionLifecycle.StaysKnown | crates/client/src/session.rs:1388-1399 | such a session is not reported unknown before 2048 other sessions were closed since it was last live, however many were closed before |
| SessionLifecycle.KnownWasKept | crates/client/src/session.rs:1128-1168 | conversely only such a session is live or among the closed ids |
| SessionLifecycle.ClosingUntilTask | crates/client/src/session.rs:1388-1416 | a close that found its session keeps the id marked closing, hence known, until one of the id's close tasks moves on |
| SessionLifecycle.EvictedAtLimit | crates/client/src/session.rs:1442-1448 | the bound is tight: closing 2048 more sessions makes a closed one unknown |
| SessionLifecycle.SessionRegistry.Consistent | crates/client/src/session.rs:1133-1168 | every registry object is in a state for which `RunKeeps` holds |
| SessionLifecycle.SessionRegistry.RegisterSession | crates/client/src/session.rs:1128-1168 | takes the id out of the closed ids and enters the session |
| SessionLifecycle.SessionRegistry.FinishHydration | crates/client/src/session.rs:1161-1167 | a failed hydration removes the session |
| SessionLifecycle.SessionRegistry.CloseSession | crates/client/src/session.rs:1388-1416 | finds exactly the ids that are live, closing or closed, in particular every kept session within the bound, marks a found one closing and spawns its close task |
| SessionLifecycle.SessionRegistry.RunCloseTask | crates/client/src/session.rs:1412-1415 | the spawned task closes the session or ends at once |
| SessionLifecycle.SessionRegistry.EndCloseTask | crates/client/src/session.rs:1412-1415 | the finished task takes back the closing mark |
| SessionLifecycle.SessionRegistry.DestroySession | crates/client/src/session.rs:1179-1184 | closes without marking |
| SessionLifecycle.SessionRegistry.CloseSessionInternal | crates/client/src/session.rs:1421-1449 | moves a live session to the end of the bounded closed list |
| Transport.RunKeeps | crates/client/src/transport.rs:114-143 | in every reachable state below the counter limit each pending id is a registered request still waiting, and every frame the peer can see belongs to a request registered before |
| Transport.IdsAreFresh | crates/client/src/transport.rs:114-121 | the next host id is positive and was never used, the next sidecar id is negative |
| Transport.StepFinal | crates/client/src/transport.rs:165-185 | a payload enters a request's channel only by a response with its id while it is pending, and a decided channel or outcome never changes |
| Transport.DeliveredArrived | crates/client/src/transport.rs:165-185 | a delivered payload arrived in a frame with the request's own id |
| Transport.ResponseIsOwn | crates/client/src/transport.rs:124-143 | the response a requester gets arrived under its own id |
| Transport.ResponseIsDelivered | crates/client/src/transport.rs:165-185 | a response that arrives for a pending request is what the request, once sent, is woken to in every continuation |
| Transport.ArrivedAnswers | crates/client/src/transport.rs:165-185 | so a request is woken to whatever arrived for it while it was pending |
| Transport.SentOnce | crates/client/src/transport.rs:124-143 | the peer sees exactly one frame, with its own body, of every request that was sent and none of any other |
| Transport.AllocatedBody | crates/client/src/transport.rs:124-143 | a request keeps the body it was issued with |
| Transport.UnsentIsTold | crates/client/src/transport.rs:124-143 | a request that cannot be encoded ends for good in an encoding error, one the writer no longer takes in a closed transport, and neither stays pending |
| Transport.RunFinal | crates/client/src/transport.rs:124-143 | each request gets at most one outcome |
| Transport.DisconnectIsFinal | crates/client/src/transport.rs:210-212 | every request pending when all are failed ends in a disconnect error and nothing else |
| Transport.SidecarTransport.NextRequestId | crates/client/src/transport.rs:114-116 | returns the counter and advances it, wrapping at 64 bits |
| Transport.SidecarTransport.NextSidecarRequestId | crates/client/src/transport.rs:119-121 | returns the sidecar counter and lowers it |
| Transport.SidecarTransport.RegisterPending | crates/client/src/transport.rs:133-135 | enters the request in the pending map |
| Transport.SidecarTransport.EnqueueFrame | crates/client/src/transport.rs:136-139 | hands the frame to the writer or takes the registration back |
| Transport.SidecarTransport.IssueRequest | crates/client/src/transport.rs:124-143 | a request takes its id, encodes, registers and only then sends |
| Transport.SidecarTransport.Correlates | crates/client/src/transport.rs:114-143 | every transport object below the counter limit is in a state for which `RunKeeps` holds |
| Transport.SidecarTransport.WakeRequest | crates/client/src/transport.rs:141-142 | the requester gets a payload if and only if it arrived under its own id while pending, and a disconnect error when its sender was dropped |
| Transport.SidecarTransport.StopWriter | crates/client/src/transport.rs:227-236 | after a write error no later frame is taken |
| Transport.SidecarTransport.HandleResponseFrame | crates/client/src/transport.rs:165-185 | takes the pending sender of the id and passes the payload, which `ResponseIsDelivered` follows to the requester |
| Transport.SidecarTransport.FailAllPendingRequests | crates/client/src/transport.rs:210-212 | drops all pending senders |
| Json.PushUtf16Escape | crates/execution/src/common.rs:77-82 | appends one escape per UTF-16 unit |
| Json.EncodeJsonString | crates/execution/src/common.rs:53-75 | appends the escapes of all characters between quotation marks |
| Json.EncodeJsonStringArray | crates/execution/src/common.rs:23-35 | writes the encoded strings separated by commas in brackets |
| Json.EncodeJsonStringMap | crates/execution/src/common.rs:37-51 | writes the encoded entries separated by commas in braces |
| Json.SurrogateRoundTrip | crates/execution/src/common.rs:77-82 | the surrogate-pair escape of every supplementary character decodes to it |
| Json.StringRoundTrip | crates/execution/src/common.rs:53-75 | the RFC 8259 decoder inverts the string encoder on every string of Unicode scalars |
| Json.ArrayRoundTrip | crates/execution/src/common.rs:23-35 | it inverts the array encoder on every list of strings |
| Json.MapRoundTrip | crates/execution/src/common.rs:37-51 | it inverts the map encoder on every list of entries |
| Json.MapContents | crates/execution/src/common.rs:37-51 | decoding the text of a map gives the map, in whatever order its entries were written |
| Json.StringEncodingInjective | crates/execution/src/common.rs:53-75 | different strings have different encodings |
| Json.ArrayEncodingInjective | crates/execution/src/common.rs:23-35 | different lists have different encodings |
| Json.MapEncodingInjective | crates/execution/src/common.rs:37-51 | different entry lists have different encodings |
| Paths.PosixNormalize | crates/client/src/fs.rs:279-326 | the segment loop computes the normal form the laws below are about |
| Paths.NormalizeIdempotent | crates/client/src/fs.rs:279-326 | normalising twice is normalising once, on every string |
| Paths.NormalizeKeepsLocation | crates/client/src/fs.rs:279-326 | a path and its normal form lead to the same lexical location from any base |
| Paths.SafeGuard | crates/client/src/fs.rs:329-337 | the safe guard accepts exactly the root and slash-joined names with at most one trailing slash |
| Paths.WritableGuard | crates/client/src/fs.rs:340-346 | beyond that the writable guard rejects exactly the paths whose first name is `proc` |
| Paths.PrefixesWritable | crates/client/src/fs.rs:594-605 | every prefix of a writable path is writable |
| Paths.DirnameLeads | crates/client/src/fs.rs:377-383 | the dirname leads to the same place after a trailing slash and to the parent otherwise |
| Paths.JoinChildLeads | crates/client/src/fs.rs:387-393 | a joined child path leads to the child |
| Kernel.Filesystem.Mkdir | crates/kernel/src/vfs.rs:962-983 | creates one directory in an existing one and accepts one that is there |
| Kernel.Filesystem.WriteFile | crates/kernel/src/vfs.rs:903-926 | writes a file, creating missing parents |
| Kernel.Filesystem.Chmod | crates/kernel/src/vfs.rs:1210-1220 | sets the mode, keeping the type bits when none are given |
| Kernel.Filesystem.Chown | crates/kernel/src/vfs.rs:1222-1228 | sets the owner |
| Kernel.Filesystem.MakeSymlink | crates/kernel/src/vfs.rs:1165-1167 | creates a link at a free place in an existing directory |
| Kernel.Filesystem.RemoveFile | crates/kernel/src/vfs.rs:614-638 | removes what a path names if it is no directory, a link itself and not its target |
| Kernel.Filesystem.RemoveDir | crates/kernel/src/vfs.rs:1047-1078 | removes an empty directory other than the root that a path names, and no link to one |
| Kernel.Filesystem.Rename | crates/kernel/src/vfs.rs:1080-1155 | renames what is not a directory |
| Kernel.Filesystem.Lstat | crates/kernel/src/vfs.rs:1179-1182 | reports the node itself |
| Kernel.Filesystem.StatPath | crates/kernel/src/vfs.rs:1038-1041 | reports the node a path leads to, links followed |
| Kernel.Filesystem.Exists | crates/kernel/src/vfs.rs:1032-1036 | says whether there is a node |
| Kernel.Filesystem.ReadFile | crates/kernel/src/vfs.rs:806-816 | returns a file's content |
| Kernel.Filesystem.ReadLink | crates/kernel/src/vfs.rs:1169-1177 | returns a link's target |
| Kernel.Filesystem.ReadDir | crates/kernel/src/vfs.rs:818-824 | lists each entry of the directory a path leads to once |
| Links.EntryPlace | crates/kernel/src/vfs.rs:484-551 | the entry of a directory reached through links is found in the directory they lead to |
| Links.GoOn | crates/kernel/src/vfs.rs:484-551 | following the link a path names leads where that link leads |
| Links.ResolveShrinks | crates/kernel/src/vfs.rs:484-551 | after nodes were removed, a path that still leads to something leads where it led before |
| Links.LinksStay | crates/kernel/src/vfs.rs:484-551 | as long as no link was removed every path leads where it led before |
| FsOps.Mkdirp | crates/client/src/fs.rs:594-605 | creates exactly the missing directories from the top down, has made a top part of them on any failure, and succeeds on a reliable kernel when only directories are in the way |
| FsOps.WriteFile | crates/client/src/fs.rs:688-692 | the guarded write |
| FsOps.CopyMeta | crates/client/src/fs.rs:626-627 | chmod and chown give the copy the original's mode and owner |
| FsOps.CopyLink | crates/client/src/fs.rs:616-620 | replicates a link at a free place, and changes nothing else |
| FsOps.CopyFile | crates/client/src/fs.rs:639-643 | replicates a file with content, mode and owner at a free place or over a file, and never below itself |
| FsOps.MakeTarget | crates/client/src/fs.rs:622-627 | makes the target directory and its ancestors where missing and gives what is at the target the original's metadata |
| FsOps.CopyDirectory | crates/client/src/fs.rs:621-638 | merges a directory and everything below it into a target not inside it |
| FsOps.SourceIntact | crates/client/src/fs.rs:609-645 | no copy, complete or not, changes or adds anything at its source |
| FsOps.CopyPath | crates/client/src/fs.rs:609-645 | success leaves every node of the source at its place under the target and changes nothing else but missing ancestors; a failure has changed only such places and ancestors; a reliable kernel with a writable target whose nodes fit gives success; on any tree and target nothing is lost, and a copy to a place strictly inside its source never succeeds, at whatever depth it is cut off and whatever calls fail |
| FsOps.IntoItself | crates/client/src/fs.rs:628-636 | the reason: the entry on the way to the target is listed, and its place is inside it again |
| FsDelete.DeleteInner | crates/client/src/fs.rs:648-673 | on any tree: it ends; success removes exactly what the path named with everything below it; if no link in the tree leads to a directory with entries outside it, nothing outside is removed however it fails; a non-recursive call removes at most the node itself; a reliable kernel gives success on a tree without links |
| FsDelete.Delete | crates/client/src/fs.rs:918-921 | the guarded delete; on a reliable kernel, for a tree with one link, it stays inside the tree if and only if the link does not lead to a directory with entries outside it |
| FsDelete.ContainedShrinks | crates/client/src/fs.rs:648-673 | removing nodes never makes a link lead out |
| FsDelete.LinkOut | crates/client/src/fs.rs:648-673 | such a tree, spelled out |
| FsMove.MovePath | crates/client/src/fs.rs:905-914 | success leaves nothing at the source directory and the whole of it at the target if and only if the target is harmless; however it fails, as long as no link leads the delete out of the source, a harmless move leaves the subtree whole at one of the two places, and only places of source nodes and new ancestors change elsewhere; a reliable kernel gives success; a move to a place inside the source never succeeds and loses nothing |
| FsMove.MovedExactly | crates/client/src/fs.rs:905-914 | a completely moved directory is whole at its target exactly when no place of its nodes lies in the source and none of its directories meets a file |
| FsMove.OverlapsExactly | crates/client/src/fs.rs:905-914 | some place lies in the source exactly when the target is at or above it and the path between them is found once more below the source |
| FsMove.FreeIsHarmless | crates/client/src/fs.rs:905-914 | every free target outside the source is harmless |
| FsMove.LinkFreeDeletesInside | crates/client/src/fs.rs:905-914 | the delete of a source without links stays inside it |
| FsMove.OntoItselfLoses | crates/client/src/fs.rs:905-914 | a directory moved onto itself is gone afterwards |
| FsMove.CopyConserves | crates/client/src/fs.rs:905-914 | a copy phase, failed or not, leaves the source as it was |
| FsMove.DeleteConserves | crates/client/src/fs.rs:905-914 | however far the delete phase got, a harmless copy is whole |
| Listing.VisitEntry | crates/client/src/fs.rs:788-819 | one entry is skipped, recorded, or recorded and queued as the recursive definition says |
| Listing.VisitDirectory | crates/client/src/fs.rs:786-820 | a directory taken off the queue has all its entries covered, once each |
| Listing.ReaddirRecursive | crates/client/src/fs.rs:770-823 | returns exactly the entries of the recursive definition, each once with its path, kind and size, in non-decreasing depth, and fails exactly when the path is refused or a needed call fails; it terminates |
| Listing.ListsTheTree | crates/client/src/fs.rs:770-823 | on a tree without links the unrestricted listing is exactly what lies below the directory |
| ProcessForest.LinkChildren | crates/client/src/process.rs:933-943 | roots are the processes with unlisted parent and child lists hold the rest, in list order |
| ProcessForest.BuildNode | crates/client/src/process.rs:945-967 | ends on every list because no index repeats on the active path; on a first visit with distinct pids nothing is filtered out and the node holds all descendants |
| ProcessForest.BuildProcessForest | crates/client/src/process.rs:930-975 | every node hangs under its parent's pid; with distinct pids every process's children are all listed children in list order |
| ProcessForest.ForestExact | crates/client/src/process.rs:930-975 | with distinct pids each process whose parent chain leaves the list occurs exactly once and every other not at all |
| ProcessForest.RootedIffNoCycle | crates/client/src/process.rs:923-929 | the chain of a process leaves the list exactly when it is not on or below a cycle |
| ProcessTable.RenameInjective | crates/client/src/process.rs:535-558 | renaming kernel pids to display pids is injective |
| ProcessTable.ScanRegistry | crates/client/src/process.rs:531-548 | the maps built by the scan are the renaming and the tracked lookup |
| ProcessTable.SnapRowIs | crates/client/src/process.rs:550-622 | the row of a snapshot entry carries the entry's four pids, each replaced by the display pid of the last process with that kernel pid, and the command, arguments, status and exit code of the last tracked process with its process id or else its own |
| ProcessTable.SnapshotRows | crates/client/src/process.rs:550-622 | each snapshot entry becomes one row that reports exactly what registry and snapshot say: pids renamed, a tracked process exited exactly if it has an exit code, an untracked one as the snapshot has it |
| ProcessTable.SeenIffShown | crates/client/src/process.rs:626-629 | a tracked process is skipped in the second scan exactly when the snapshot shows its kernel pid |
| ProcessTable.SortByPid | crates/client/src/process.rs:656 | sorts a permutation of the rows |
| ProcessTable.AllProcesses | crates/client/src/process.rs:522-658 | strictly ascending by pid, every snapshot entry and every tracked pid exactly once and nothing else; each row reports what registry and snapshot say, an unshown process as leader of its own group, exited exactly if it has an exit code |
| ProcessTable.ParentsPreserved | crates/client/src/process.rs:553-564 | for any rows that report two snapshot entries, one is the parent of the other if and only if it was before renaming |
| ProcessTable.GroupsPreserved | crates/client/src/process.rs:553-566 | and one leads the process group or the session of the other if and only if it did before |
| ProcessTable.ProcessTree | crates/client/src/process.rs:702-705 | the forest of the table meets the distinct-pid condition and holds exactly the rooted processes once |

## Left out

- CronParse.ParseFieldPart: the step is added over unbounded integers, so a 32-bit overflow of the loop variable is not captured.
- SessionRequests.RunMarked: the request counter is unbounded, so wrap-around after 2^63 requests is not captured.
- Transport.RunKeeps: covers runs of fewer than 2^63 steps, after which a counter would wrap.
- EventRing.NextSynthetic: the subtraction is unbounded, so underflow below the least 64-bit number is not captured.
- Kernel.Filesystem.StatPath: the limits on the length of paths and names are not captured.
- Kernel.Filesystem.Exists: a link counts as present without being followed.
- Kernel.Filesystem.WriteFile: a link is refused, not followed.
- Kernel.Filesystem.ReadFile: a link is refused, not followed.
- Kernel.Filesystem.Chmod: a link is refused, not followed.
- Kernel.Filesystem.Chown: a link is refused, not followed.
- Kernel.Filesystem.Rename: only renaming what is not a directory is modelled, the one case a move uses.
- FsOps.CopyPath: what exactly a copy leaves is stated for a target that holds no link, has none on its way, and overlaps the source only where both hold the same nodes; `CopyDirectory` and `MakeTarget` share this. `depth` stands for the unbounded descent.
- FsDelete.Delete: that a delete leaves the tree is stated for trees with one link, because with several the order of the listing decides which one stops it.
- FsMove.MovePath: what exactly a move of a directory leaves is stated under the condition of `CopyPath`.
- CronOverlap.CronManager.ScheduleCron: validating the schedule and arming and cancelling the driver are left to an arbitrary driver.
- EventRing.SessionEntry.SyncSessionState: the cached modes, options, capabilities and agent info are not captured.
- EventRing.SessionEntry.RecordSessionNotification: cache updates and broadcasts are not captured.
- EventRing.SessionEntry.RecordSynthetic: the returned response and the overrides applied again are not captured.
- SessionRequests.SessionTable.ApplyConfigFallback: its synthetic event is in `EventRing`, its response is not captured.
- Permissions.PermissionTable.RespondPermission: the request sent to the sidecar when no slot is stored is not captured.
- ProcessTable.SnapshotRows: start and exit times are not captured.
- ProcessTable.AllProcesses: start and exit times are not captured.
- CronOverlap.RunKeeps: flags are accurate for ids registered once; `NoOverlapIffIdle` covers registering again.
- Daylight-saving transitions, chrono's bounds on years, and the value of a one-shot timestamp.
- Hard links, timestamps and sizes of files in copies.
- The timer-based schedule driver, broadcast channels, process streams, shells, networking and framing.
- Batch reads and writes, mounts, snapshots, sidecar pooling and session creation.
