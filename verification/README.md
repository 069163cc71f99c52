# Posthouse: models and proofs

Dafny models of the parts of Posthouse where a mistake is easy to miss: the
expansion of recurring events, paginated search over several mailboxes with its offline
cache, the protocol that executes prepared operations, and the encrypted state database.
Everything here is about the Go sources under `internal/`; the files hold models of that
code and proofs about the models. `dafny verify dfyconfig.toml` checks the project.

Code that changes state keeps its form: stores, tables and rows are classes whose methods
reassign their fields, loops are loops, and the slices compacted in place are arrays. Each
such method is proved against a function of its inputs or of the old state, and the
properties are lemmas about those functions, or about every finite sequence of events.

| module | models |
|---|---|
| `RecurrenceRules`, `RecurrenceWindow`, `ExpansionMeaning`, `RangeExpansion` | windowed expansion of a calendar, what the parsed events mean, and that the one is the other |
| `MailSearch`, `PageMerge`, `Pagination`, `Traversal` | one mailbox search, the merge of one page, one page over many mailboxes, whole traversals under change |
| `HiddenMail` | traversals of unchanged mailboxes: which mail every one shows, and which some lose |
| `OfflineCache`, `CachedPages`, `CachedTraversal`, `Interleaving`, `CacheGaps` | the cache of search pages, what live pages leave in it, alone and among other traversals, and what a lost entry does |
| `ReadMail`, `OfflineAgreement`, `OfflineAlways`, `ReplacedReading` | what pages read, show and hide; exactly when the cache agrees with one traversal, and with all |
| `Generations` | UIDVALIDITY generations among concurrent readers |
| `OperationTable`, `ExecutionProtocol`, `ExecutionTimeouts`, `ExecutionProgress`, `ExecutionOutcome` | the operation table, its executors and waiters, when a waiter gives up and that it is answered, what is stored and returned |
| `PreparedPayload`, `PayloadAcceptance` | the payload that runs, and exactly when it is accepted |
| `SealedStorage`, `StoredRows`, `StoreHandles`, `RekeyRecovery`, `Eviction` | the encrypted store, its rows and handles, rekeying across crashes, the byte limit |
| `FramedKeys`, `ContentLines`, `TextForms`, `TimezoneData`, `TzifFormat` | cache keys, folding and escaping, embedded time zones |
| `Ordering`, `Tables`, `Wrappers` | sorting, table sums, options and bytes, shared by the others |

## Assumptions

- Calendar times are whole seconds in one fixed-offset zone, and a day has 86400 of them.
  A calendar has one master per UID and one override per UID and RECURRENCE-ID. A rule is an
  arithmetic progression, or an arbitrary predicate on instants up to a last one; moving the
  start of a rule does not change that predicate.
- An IMAP server answers SEARCH by calendar day in the message's own zone and SORT as section
  3 of RFC 5256 says, numbers its UIDs upwards, and never changes a message's time. UIDNEXT
  is not zero and every fetched message has an envelope. Between the calls of a traversal
  mail is deleted, stops matching, or arrives with UIDs from UIDNEXT on; UIDVALIDITY stays.
  Messages may be written in any zones, less than a day from UTC.
- Every database transaction is atomic, and so is every statement outside one; a cache read
  is two statements, and other handles may do anything between them. Encryption is ideal:
  opening succeeds exactly with the key and associated data a value was sealed under, and the
  length of a sealed record depends on the record alone. Where progress is stated, the record
  of an interrupted execution is sealed in no more bytes than were reserved. Hashes are ideal
  and collision-free, and a file is read at one instant.
- Server UIDVALIDITY never decreases, and the cached generation row is not evicted.

## Where the code does less than it might seem to

- A search may miss messages when the cursor is written in another zone than they are: the
  day bound sent to the server is taken in the cursor's zone (`MailSearch.PromiseKeptExactly`,
  `MailSearch.MixedZonesLoseMessage`). So a finished traversal may lack wanted mail: it shows
  all of it, whatever the page sizes, if and only if local dates never rise along a
  connection's wanted mail in order (`HiddenMail.AllShownExactly`,
  `HiddenMail.TraversalLosesMessage`).
- What a page hides it may have read and cached. So the offline cache can show mail that the
  live traversal did not: it does exactly when some page hides a message that the connection's
  entry then holds (`OfflineAgreement.AgreesExactly`). No traversal of given mailboxes does if
  and only if each message is hidden by none, or by more than the 100 a page can hold, of the
  messages of its connection that nothing hides (`OfflineAlways.OfflineEqualsLiveExactly`,
  `OfflineAlways.CrowdAgrees`).
- An attachment file that is empty when it is snapshotted is read again when it is sent,
  because empty data is dropped from the encoded payload (`PreparedPayload.SameBytesExactly`,
  `PreparedPayload.EmptyFileSentLater`).
- A second rekey in a process whose first one could not update the keychain seals the
  recovery record under a key the keychain never held (`RekeyRecovery.RekeySafeExactlyInStep`,
  `RekeyRecovery.SecondRekeyLocksOut`).
- A search begun anew replaces its entry whatever traversal that belongs to, so a first page
  that arrives late undoes a finished one; late continuation pages do not
  (`Interleaving.SurvivesExactly`, `Interleaving.LatePagesChangeNothing`).
- A cached search that loses its entry between two pages can still end up marked complete
  without its first messages, although the code means to prevent that
  (`CacheGaps.GapMisleadsExactly`, `CacheGaps.GapLosesFirstOfThree`).
- A cache read finds an entry's row and reads its chunks in two statements. If the row is
  deleted in between, the entry is returned as found with an empty value, which
  internal/service/service.go:3173-3205 then serves as an attachment
  (`SealedStorage.ServedEmptyExactly`, `SealedStorage.RemovedIsServedEmpty`).
- The limit check inside an operation update can never refuse anything
  (`OperationTable.UpdateKeepsCapacity`).

## Model

| member | source | states |
|---|---|---|
| `RangeExpansion.ParseRange` | internal/calendar/ics.go:117-288 | a successful expansion holds exactly what the parsed events mean in the range: every start of a series (its rule's, RDATEs and period starts, less EXDATEs) without an override of its own, as long as the event, or moved and as long as the last THISANDFUTURE override at or before it says, or to its period's end; every single event; and every override of a series that is not cancelled. No id occurs twice, starts and ids ascend, at most 10000 instances and overrides are held, and no series has more starts than that inside its candidate intervals. A refusal names more than 10000 results, more starts of one series inside its candidate intervals than are expanded, or more than 1000000 occurrences to skip |
| `RangeExpansion.ExpectedIsMeant` | internal/calendar/ics.go:117-288 | the naive expansion the loops are proved against is that meaning, in both directions |
| `ExpansionMeaning.RecurringEndLasts` | internal/calendar/ics.go:476-488 | the computed end is the only one that makes an instance as long as its event; an all-day event takes the days between its midnights, and one day without a later one |
| `ExpansionMeaning.SameLength` | internal/calendar/ics.go:476-517 | so timed instances, those with a DURATION of either sign, and all-day ones between midnights take exactly the time between the event's start and end; an all-day event without a later end takes one day |
| `ExpansionMeaning.RecursMeans` | internal/calendar/ics.go:164-210 | the full set of a series: the rule's occurrences within COUNT and up to its last instant, RDATEs and period starts, and no EXDATE |
| `RangeExpansion.WindowedIsNaive` | internal/calendar/ics.go:150-280 | the windowed series pass together with the detached-override pass is the naive expansion, both directions |
| `RangeExpansion.ExpandSeries` | internal/calendar/ics.go:164-257 | one series visits exactly the members of its full set inside the candidate intervals, each once, and emits what each yields |
| `RangeExpansion.ExpandInterval` | internal/calendar/ics.go:173-257 | one interval visits exactly the not yet visited members in it, across the fast-forwarded rule, RDATEs, period starts and EXDATEs; over-limit and over-work refusals are genuine |
| `RangeExpansion.EmitOccurrence` | internal/calendar/ics.go:211-255 | a visited start yields the exact override, else the shifted instance of the applicable THISANDFUTURE override, else the base instance, and only if visible |
| `RangeExpansion.Classify` | internal/calendar/ics.go:128-148 | the maps built in one scan: exact overrides by UID and RECURRENCE-ID, THISANDFUTURE overrides of each UID in order, cancelled masters |
| `RangeExpansion.AppendDetached` | internal/calendar/ics.go:259-280 | adds exactly the visible overrides not met in the series pass whose master is not cancelled, or stops past the limit |
| `RangeExpansion.EmissionExpected` | internal/calendar/ics.go:211-255 | whatever a member of a series emits belongs to the naive expansion |
| `RangeExpansion.PartsDistinct` | internal/calendar/ics.go:150-280 | no occurrence is produced by both passes or twice by one |
| `RangeExpansion.RefusalJustified` | internal/calendar/ics.go:207-210 | a refusal inside a series names starts, results or work that really exist |
| `RecurrenceWindow.RecurrenceCandidateIntervals` | internal/calendar/ics.go:295-337 | the merged intervals are ascending and pairwise disjoint and cover the same instants as the unmerged ones |
| `RecurrenceWindow.InstanceCovered` | internal/calendar/ics.go:295-324 | no visible instance is lost: its original start lies in a candidate interval, however far an override moves it |
| `RecurrenceWindow.CandidatesTouch` | internal/calendar/ics.go:295-324 | and no candidate is idle: each has an instance, its own, a period's or one an override moves, that touches the range |
| `RecurrenceWindow.MergeInPlace` | internal/calendar/ics.go:326-336 | the compaction that reuses its own slice equals the pure merge of the original contents; nothing unread is overwritten |
| `RecurrenceWindow.CompactShape` | internal/calendar/ics.go:326-336 | merging ascending intervals leaves them ascending and disjoint |
| `RecurrenceWindow.CompactKeepsInstants` | internal/calendar/ics.go:326-336 | merging keeps exactly the covered instants |
| `RecurrenceWindow.AbsorbAt` | internal/calendar/ics.go:328-334 | one step of the in-place merge, and the frame it leaves alone |
| `RecurrenceWindow.SortIntervals` | internal/calendar/ics.go:325 | sorting the intervals keeps them and what they cover |
| `RecurrenceWindow.ApplicableFutureOverride` | internal/calendar/ics.go:387-399 | the scan finds the last override at or before a start |
| `RecurrenceWindow.Applicable` | internal/calendar/ics.go:387-399 | that override exists exactly when one is at or before the start, and no later one is |
| `RecurrenceWindow.LookbackIsExact` | internal/calendar/ics.go:339-364 | an occurrence ends after a boundary if and only if it starts after the lookback, for all-day, DURATION and DTEND events |
| `RecurrenceWindow.PeriodEnd` | internal/calendar/ics.go:166-170 | the end of the last listed RDATE period with a start, if there is one |
| `RecurrenceRules.FastForwardRule` | internal/calendar/ics.go:401-440 | the shifted rule recurs at the same instants from the lookback on; `exhausted` only when none are left; COUNT never becomes 0; it is refused exactly for a counted SECONDLY, MINUTELY or HOURLY rule with selectors, a step or more before the lookback, with more than 1000000 occurrences to skip; a progression ends up less than two steps before the lookback |
| `RecurrenceRules.FastForwardCountedRule` | internal/calendar/ics.go:442-463 | the counted form meets the same contract over an abstract occurrence sequence |
| `RecurrenceRules.ShiftFits` | internal/calendar/ics.go:421-437 | the shift product stays within the elapsed time and within int64 nanoseconds |
| `RecurrenceRules.ShiftedProgression` | internal/calendar/ics.go:435-437 | moving the start by whole steps and reducing COUNT by as many keeps the occurrences |
| `RecurrenceRules.ExhaustedProgression` | internal/calendar/ics.go:432-434 | a COUNT used up before the lookback leaves nothing |
| `MailSearch.SearchContext` | internal/mail/imap.go:104-173 | whichever path the server allows, the first Limit matches found and whether there is one more |
| `MailSearch.SortedCandidates` | internal/mail/imap.go:127-163 | the SORT path, with the cursor present (window, early break) or gone (whole list), finds the same messages as the plain path |
| `MailSearch.FetchSearchCandidates` | internal/mail/imap.go:291-340 | the chunk loop with its kept best Limit+1 and early break returns the first Limit+1 exact matches of the whole list, whatever order items are fetched in |
| `MailSearch.OrderedUidWindow` | internal/mail/imap.go:252-271 | the window starts just after the first occurrence of the cursor and holds up to the limit; a missing cursor leaves the list whole |
| `MailSearch.WindowAnswers` | internal/mail/imap.go:248-271 | a window the scan can yield holds the same answer as the whole sorted list |
| `MailSearch.PrefixSettles` | internal/mail/imap.go:335-337 | in provider order, enough matches in the chunks so far settle the answer |
| `MailSearch.DayBoundsAreSafe` | internal/mail/imap.go:273-281 | asking a day early and two days late hides no message in range, whatever its zone |
| `MailSearch.DayBoundsAreNear` | internal/mail/imap.go:104-112 | nor do the days asked for admit messages three days before the range, three or, with a cursor, four after it, or three after the cursor |
| `MailSearch.PromiseKeptExactly` | internal/mail/imap.go:104-112 | the search returns the promised messages if and only if the local date of each is within the day bound derived from the cursor |
| `MailSearch.OneZoneKeepsPromise` | internal/mail/imap.go:104-112 | which holds when no message is written east of the cursor's zone |
| `MailSearch.MixedZonesLoseMessage` | internal/mail/imap.go:104-112 | and fails for a message an hour before the cursor written in a zone where it is already the next day |
| `MailSearch.FoundIsShown` | internal/mail/imap.go:104-173 | what a search finds is exactly the first Limit+1 messages, newest first, that it wants and its day bounds do not hide |
| `Pagination.SearchMessages` | internal/service/service.go:282-467 | a requested size outside 0 to 100 is refused and 0 is the default of 25; otherwise one page is the next messages in order of all that searches from its cursor can still find, whatever zones they are written in. Each is in the mailbox of a selected connection, matches, is not older than `since` and is older than `before`, and comes after what its connection has shown. A first page holds the newest of all messages that meet those bounds, and without a cursor all of them; a cursor comes exactly when more is left, and is the one `Advance` describes |
| `Pagination.AllInReachAtStart` | internal/service/service.go:327-331 | at the start the rest is exactly the messages of the selected connections that match and lie within the time range |
| `Pagination.FirstHoldsNewest` | internal/service/service.go:418-441 | whatever in those bounds a first page leaves out comes after everything on the full page |
| `PageMerge.PageSize` | internal/pagination/cursor.go:104-112 | every size from 1 to 100 is obtained by asking for it, and whatever is asked for no other size is used |
| `PageMerge.MergePage` | internal/service/service.go:418-441 | the merge of per-connection results, each only one message longer than the page, is the beginning of the whole order |
| `PageMerge.PickBest` | internal/service/service.go:422-437 | the scan over the connections finds the next message of the whole |
| `PageMerge.MoreExactly` | internal/service/service.go:442-450 | unconsumed or unfetched messages of some connection exist if and only if more is left than the page shows |
| `PageMerge.NextPosition` | internal/service/service.go:412-466 | the new cursor state of every connection, and has-more |
| `PageMerge.MergeResults` | internal/service/service.go:418-466 | merge and closing loop together, shared by live and offline pages: the page is the beginning of what is left, and a cursor comes exactly when more is |
| `Pagination.SearchConnection` | internal/service/service.go:327-366 | a provider search delivers the beginning of its connection's part of what is in reach, whichever path the server allows |
| `Pagination.RestOfConnection` | internal/service/service.go:316-467 | one connection's messages in reach, in mailbox order, are its part of the whole order |
| `Traversal.CompletePagination` | internal/service/service.go:282-467 | over deletions and arrivals between calls and any zones, the joined pages are strictly ordered (so nothing twice), hold only mail of the first moment and end; at the end they hold every message present throughout, unless one before it in its connection has an earlier local date |
| `Traversal.AdvanceRest` | internal/service/service.go:412-456 | after a page exactly the messages not on it are left, less those the day bound of the new cursor hides |
| `Traversal.RestShrinks` | internal/service/service.go:327-333 | the recorded UIDNEXT keeps arrivals out of the traversal |
| `Traversal.NothingMissed` | internal/service/service.go:282-467 | mail present throughout that no earlier message can hide is shown already or still in reach, after every call |
| `HiddenMail.StillTraversal` | internal/service/service.go:282-467 | over unchanged mailboxes with local dates in order the pages and what is left are always all matches in order, whatever the page sizes |
| `HiddenMail.AlwaysShownExactly` | internal/service/service.go:282-467 | every finished traversal of unchanged mailboxes, in pages of 1 to 100, shows a wanted message if and only if no wanted message before it in its connection has an earlier local date |
| `HiddenMail.AllShownExactly` | internal/service/service.go:282-467 | every finished traversal, whatever its page sizes from 1 to 100, shows all wanted mail in order if and only if local dates never rise along a connection's wanted mail |
| `HiddenMail.SomeTraversalLoses` | internal/mail/imap.go:104-112 | pages of one message each never show a message that a wanted one hides, and they finish |
| `HiddenMail.TraversalLosesMessage` | internal/mail/imap.go:104-112 | two wanted messages an hour apart, the older written where it is already the next day: two pages of one message end after the newer |
| `CachedTraversal.OfflineEqualsLive` | internal/service/service.go:2661-2835 | with local dates in order, after a finished live traversal of unchanged mailboxes every finished offline traversal, with page sizes of its own and anything cached before, shows the same messages in the same order; one is finished after as many pages as messages |
| `OfflineAgreement.AgreesExactly` | internal/service/service.go:2661-2835 | a finished live traversal agrees with every finished offline one after it if and only if no page of it hides a message that the connection's entry then holds |
| `ReadMail.ReachAfter` | internal/mail/imap.go:104-112 | after every page, what the traversal can still show is the wanted mail after the last message shown of its connection whose local date is no later; no other part of the past matters |
| `CachedPages.EntryHolds` | internal/service/service.go:2684-2702 | the entry after a page holds exactly what that page read and, if it continued the entry, what was held before |
| `OfflineAlways.OfflineEqualsLiveExactly` | internal/service/service.go:2661-2835 | every finished live traversal agrees with every finished offline one after it, all in pages of 1 to 100, if and only if each wanted message is hidden by none, or by more than 100, of the messages of its connection that nothing hides |
| `OfflineAlways.SomeCacheShowsMore` | internal/service/service.go:2661-2702 | otherwise some finished live traversal leaves a cache that shows a message it did not: pages of one message up to the first that hides it, one page as large as the number that hide it, and pages of one message to the end |
| `OfflineAlways.EarlyRiseDisagrees` | internal/service/service.go:2661-2702 | a local date that rises after one of a connection's first 100 messages makes some traversal disagree |
| `OfflineAlways.CrowdAgrees` | internal/mail/imap.go:104-112 | one message hidden by n newer ones: all traversals agree if and only if n is 0 or more than 100, although dates rise for every n above 0 |
| `ReplacedReading.ReplacedReadingAgrees` | internal/service/service.go:2674-2702 | a page may hide a message that an earlier page read and the cache agrees all the same, when the connection had shown nothing and began its entry anew |
| `CachedPages.CacheCovers` | internal/service/service.go:2661-2707 | after every live page the stored entry is a beginning of all matches that reaches past what was shown, and all of them unless marked otherwise; a loss before anything was shown changes nothing |
| `CachedPages.EntryKept` | internal/service/service.go:2684-2702 | whatever the dates, after every page of a traversal the entry is in order, of its generation and UIDNEXT, and marked as that page was |
| `CachedTraversal.ReadingsChain` | internal/service/service.go:316-417 | with local dates in order the live pages read one stretch of a connection's matches after the other |
| `CachedTraversal.CacheComplete` | internal/service/service.go:2661-2707 | after the last live page the entry is complete and holds all of the connection's matches |
| `CacheGaps.GapMisleadsExactly` | internal/service/service.go:2684-2702 | an entry that vanishes between two pages is left marked incomplete if and only if messages were out by then and only one page followed; unmarked, it holds exactly what was left then, which is all if and only if none were out |
| `CacheGaps.GapLosesFirst` | internal/service/service.go:2684-2702 | one connection of more than two messages, pages of one, the entry lost after the first: at the end it is marked complete and lacks exactly the first message |
| `CacheGaps.GapLosesFirstOfThree` | internal/service/service.go:2684-2702 | the same for three given messages, which are all matches and whose traversal finishes |
| `CacheGaps.SinceGap` | internal/service/service.go:2684-2702 | after a gap the entry covers what was shown since, and its mark lasts only until the next page |
| `OfflineCache.CachedMine` | internal/service/service.go:2771-2808 | what a complete entry holds past a cursor is its connection's part of the whole order, which is what the merge asks of a provider |
| `OfflineCache.CachedMailResult` | internal/service/service.go:2731-2808 | an offline result comes exactly from a complete scoped entry: its messages past the cursor, cut to the limit, with has-more |
| `OfflineCache.CacheMailResult` | internal/service/service.go:2661-2707 | a continuation page whose generation or UIDNEXT is not the stored entry's is refused and leaves the entry; every other page is accepted: a first one replaces the entry, one without an entry is marked incomplete, and one of the same traversal adds its messages, in order, over stored ones with their UIDs, and marks the entry as it is marked itself |
| `Interleaving.SurvivesExactly` | internal/service/service.go:2682-2690 | a page of another generation or UIDNEXT leaves the entry if and only if it comes with a cursor |
| `Interleaving.MixedLeavesSame` | internal/service/service.go:2661-2707 | a traversal leaves the same cache whatever continuation pages of older traversals are stored between and after its own |
| `Interleaving.MixedOfflineEqualsLive` | internal/service/service.go:2661-2808 | so with local dates in order offline equals live among other traversals too |
| `Interleaving.LatePagesChangeNothing` | internal/service/service.go:2682-2690 | after a traversal has finished, late pages of others change no entry and no offline page |
| `OfflineCache.MergeMailResults` | internal/service/service.go:2811-2835 | map, overwrite and sort yield the newer messages and the stored ones with other UIDs, in order |
| `OfflineCache.MergePrefix` | internal/service/service.go:2811-2835 | two overlapping stretches of one ordered list merge into the longer beginning |
| `OfflineCache.OfflineSearchMessages` | internal/service/service.go:338-348 | the offline page comes from the cache by the same merge, with the same bounds on its size |
| `OfflineCache.OfflineTraversal` | internal/service/service.go:316-467 | offline pages of any sizes and what is left are always everything cached in order, and pages of valid sizes end once there are as many of them as messages |
| `CachedTraversal.CompleteHoldsAll` | internal/service/service.go:2731-2808 | entries that hold all matches of their connections show offline what the mailboxes hold |
| `Generations.GenerationNeverDecreases` | internal/service/service.go:3400-3426 | over every interleaving of readers, commits, lookups, crashes and evictions of bodies, index and search entries, the cached UIDVALIDITY never decreases and never exceeds the server's |
| `Generations.ServedUnderGenerationRead` | internal/service/service.go:2764-2770 | every body, index and scoped search entry served from the cache was fetched under the generation the lookup read |
| `Generations.StepKeeps` | internal/service/service.go:2661-2722 | each step of snapshot, provider read, commit, write of body, search entry and index, and lookup keeps the generation invariant |
| `Generations.GenerationRow.CommitMailboxUidValidity` | internal/service/service.go:3400-3426 | compare-and-set: commits exactly when the row still is the snapshot and the new value is not zero, and otherwise changes nothing |
| `Generations.FetchedIsServed` | internal/service/service.go:1740-1768 | a body fetched without interference is committed, stored and served back under the server's generation |
| `Generations.SearchedIsServed` | internal/service/service.go:2661-2722 | a search whose page belongs to the entry stores it in entry and index, and both lists are served back |
| `Generations.RejectedWritesNothing` | internal/service/service.go:2682-2690 | one whose page belongs to another traversal or generation commits the generation and writes nothing else |
| `Generations.LateReaderWritesNothing` | internal/service/service.go:3400-3426 | a reader that finds another generation committed since its snapshot, or read zero, writes nothing |
| `Generations.OutdatedIsNotServed` | internal/service/service.go:2764-2770 | a list of another generation than the committed one, and a body that is not there, are not served |
| `ExecutionProtocol.AtMostOneExecution` | internal/service/service.go:1383-1473 | over every interleaving of executors, waiters, timeouts, crashes, lost acknowledgements and purges a token's provider call runs at most once, with the prepared payload, and only after its row left `prepared` |
| `ExecutionProtocol.TerminalAgreement` | internal/service/service.go:1437-1507 | all terminal results ever returned for a token are equal and equal the stored one; the status column always equals the sealed record's |
| `ExecutionOutcome.AnswerIsStoredAndReturned` | internal/service/service.go:1383-1473 | from every reachable state, a call on a prepared operation that has not expired and whose records fit calls the provider once with the prepared record, and stores and returns exactly the outcome and result it answers, for each terminal outcome |
| `ExecutionOutcome.PreparedIsThere` | internal/state/store.go:569-616 | an operation prepared first, for which there is room, is then stored as it was prepared, with nothing run or returned |
| `ExecutionOutcome.ExpiredOrRefusedIsNotRun` | internal/service/service.go:1398-1430 | a call on an expired operation, or one a precondition refuses, runs nothing and changes nothing |
| `ExecutionOutcome.ResultsComeFromProvider` | internal/service/service.go:1437-1507 | in every run each stored and each returned terminal result is the answer of the token's own provider call, at its time, or says that the execution was interrupted |
| `ExecutionOutcome.SettledIsReturned` | internal/service/service.go:1392-1397 | a call that finds the operation settled, at its first read or after a lost claim, returns what is stored and changes nothing |
| `ExecutionOutcome.ExecutingIsWaitedFor` | internal/service/service.go:1392-1394 | one that finds it executing waits for the claimed record and changes nothing |
| `ExecutionOutcome.WaiterReturnsStored` | internal/service/service.go:1475-1507 | a waiter whose operation is settled before the timeout returns the stored result |
| `ExecutionOutcome.ImpatientIsTold` | internal/service/service.go:1475-1507 | one whose context ends before that is told that the operation is executing |
| `ExecutionOutcome.LostClaimReadsAgain` | internal/state/store.go:722-739 | a claim that finds the operation no longer prepared reads it again, unless its record does not fit what is reserved |
| `ExecutionOutcome.FaultyClaimStops` | internal/service/service.go:1427-1430 | a claim that fails or is not acknowledged ends the call before the provider is called |
| `ExecutionOutcome.LostResponseIsReadBack` | internal/service/service.go:1461-1467 | an answer whose commit is not acknowledged is stored, read back and returned |
| `ExecutionProtocol.StatusMovesForward` | internal/state/store.go:657-716 | an event moves a row from prepared to executing to one terminal status, never back, and never enlarges its reservation |
| `ExecutionProtocol.CapacityHolds` | internal/state/store.go:589-697 | in every reachable state reservations fit the limit and records their reservations, and no update is refused for the total limit |
| `ExecutionTimeouts.InterruptedOnlyAfterTimeout` | internal/service/service.go:1475-1507 | in every reachable state a waiter that can still settle an operation as interrupted does so no sooner than ten minutes after its claim |
| `ExecutionProgress.WaiterIsAnswered` | internal/service/service.go:1475-1507 | from every reachable state a call that awaits the result of a claimed operation, over any events of others and crashes of the claimer, has been answered once it took four turns after the ten minutes: with a terminal result, which is the stored one, provided its own turns meet no fault and the operation is not purged |
| `ExecutionProgress.NextCallSettles` | internal/service/service.go:1475-1507 | the next call on an operation still executing ten minutes after its claim settles it as interrupted, stores that and returns it |
| `ExecutionProgress.StepKeepsHealthy` | internal/state/store.go:592-690 | every event keeps the reservation made at preparation until the row is settled, and what a waiter is about to store is the operation as prepared, interrupted |
| `OperationTable.OperationStore.PutOperation` | internal/state/store.go:569-616 | the transaction purges, checks the limit and inserts, or changes nothing |
| `OperationTable.OperationStore.UpdateOperation` | internal/state/store.go:657-716 | the guarded update replaces one row or changes nothing |
| `OperationTable.OperationStore.ClaimOperation` | internal/state/store.go:722-739 | claims exactly the prepared operations whose executing record fits, and otherwise changes nothing |
| `OperationTable.PutExactly` | internal/state/store.go:569-616 | rows that expired less than a day ago stay and all others go; the operation is refused exactly when twice its size and 4 KiB do not fit beside their reservations or its token is among them; its row says what was put |
| `OperationTable.UpdateExactly` | internal/state/store.go:657-716 | refused exactly for a missing row, a record above the reservation or another status; otherwise only this row changes, to the record, keeping its expiry and, once settled, only the bytes it needs |
| `OperationTable.PutKeepsCapacity` | internal/state/store.go:592-607 | inserting keeps reservations within the limit |
| `OperationTable.UpdateKeepsCapacity` | internal/state/store.go:675-697 | updating only shrinks reservations, so its limit check never fires |
| `PreparedPayload.WhatRunsIsWhatWasPrepared` | internal/service/service.go:1404-1437 | whatever happens to attachment files, an operation that passes the digest check has the prepared fields and sends the prepared bytes of every attachment whose snapshot was not empty, within 25 MiB as digested |
| `PreparedPayload.SameBytesExactly` | internal/service/service.go:2045-2062 | all attachments are sent as prepared, for every later state of the files, if and only if no file-backed attachment was empty when snapshotted |
| `PreparedPayload.EmptyFileSentLater` | internal/service/service.go:2045-2062 | a file empty at every check and filled before sending is sent with its new bytes |
| `PayloadAcceptance.AcceptedExactly` | internal/service/service.go:1404-1411 | an operation is accepted for execution if and only if every attachment file holds what it held at preparation, as far as the execution reads it: a file with content at the snapshot, an empty one at the check |
| `PayloadAcceptance.UnchangedIsAccepted` | internal/service/service.go:1404-1411 | a mail is digested exactly when all its files are there and its attachments are within 25 MiB, and with unchanged files it is then accepted |
| `PayloadAcceptance.DigestBinds` | internal/service/service.go:1960-2018 | equal digests mean equal kind, fields, and of every attachment path, name, type and bytes |
| `PayloadAcceptance.DigestedExactly` | internal/service/service.go:1995-2013 | digesting fails exactly when a file is missing or the attachments exceed 25 MiB together |
| `PayloadAcceptance.SnapshotExactly` | internal/service/service.go:2020-2062 | a snapshot is taken exactly when the payload can be digested, and differs in the bytes of file-backed attachments alone |
| `PreparedPayload.DigestPayload` | internal/service/service.go:1960-2018 | the loop digests kind, canonical message and every attachment's bytes, and fails on unreadable files or past the total limit |
| `PreparedPayload.SnapshotAttachmentPayload` | internal/service/service.go:2020-2062 | the loop fills the file-backed attachments in place within what the limit leaves |
| `PreparedPayload.FillFacts` | internal/service/service.go:2045-2056 | a snapshot changes exactly the file-backed attachments, to what the files held |
| `PreparedPayload.DigestFacts` | internal/service/service.go:1995-2013 | the digested bytes are the inline data or the files', within the total limit |
| `SealedStorage.StoreRefinesPlain` | internal/state/store.go:418-903 | over every interleaving of handles that open, write, delete and rekey: one key for marker, chunks and operations, no effect of handles with another key, and readable contents equal to those of a plain store, byte for byte |
| `SealedStorage.SealedChunksRead` | internal/state/store.go:436-449 | the chunks of a value are those its size calls for, bound to their row, and join to the value |
| `SealedStorage.PutEntryHolds` | internal/state/store.go:418-451 | a put replaces one value and touches no other |
| `SealedStorage.RekeyHolds` | internal/state/store.go:741-873 | a committed rekey preserves every plaintext and leaves one key |
| `SealedStorage.DeleteEntriesHolds` | internal/state/store.go:525-530 | deleting entries takes their chunks and nothing else |
| `SealedStorage.WriteOperationHolds` | internal/state/store.go:569-616 | writing an operation under the current key replaces that record only; a handle is refused exactly when its key is not the one in force |
| `SealedStorage.ReadExactly` | internal/state/store.go:453-499 | over every run, with any events of other handles between the two statements of a read: not found exactly when the entry was missing at the first; else nothing if its row is gone by the second, the stored bytes if the row still holds the entry and the key is in force, an error otherwise |
| `SealedStorage.ServedEmptyExactly` | internal/state/store.go:456-494 | a value that is not empty is served as found and empty if and only if its row was deleted between the two statements |
| `SealedStorage.RemovedIsServedEmpty` | internal/state/store.go:456-494 | a value of any length, removed by another handle between the statements of a read, is served as found and empty |
| `StoredRows.ChunkIsPiece` | internal/state/store.go:436-449 | chunk n holds the n-th MiB of its value |
| `StoredRows.PutExactly` | internal/state/store.go:418-451 | refused exactly under another key; else the entry has one row, which says what was put, and no other row, operation, marker or recovery record changes |
| `StoredRows.RekeyExactly` | internal/state/store.go:741-873 | refused exactly for a key that is not of 32 bytes or under a stale handle; else the rows stay, the marker is under the new key, and the new key is sealed under the old one if the keychain is in use |
| `StoredRows.DeleteExactly` | internal/state/store.go:525-530 | exactly the rows of the deleted entries go |
| `StoreHandles.Store.Put` | internal/state/store.go:297-331 | the transaction behind the key check commits the put or changes nothing |
| `StoreHandles.Store.FindEntry` | internal/state/store.go:462-465 | the first statement finds the row of the entry, or that there is none |
| `StoreHandles.Store.ReadChunks` | internal/state/store.go:477-494 | the chunk loop returns the joined bytes of a row that still holds the entry under the key in force, nothing for a row that is gone, and an error otherwise |
| `StoreHandles.Store.Get` | internal/state/store.go:453-499 | the two statements with any events of other handles between: the result is the one `SealedStorage.ReadExactly` describes; with nothing between, exactly the stored bytes, nothing for a missing entry, and an error only under another key |
| `StoreHandles.Store.PutOperation` | internal/state/store.go:569-616 | writes the sealed record behind the key check or changes nothing |
| `StoreHandles.Store.GetOperation` | internal/state/store.go:625-643 | returns the stored record exactly under the key in force |
| `StoreHandles.Store.Rekey` | internal/state/store.go:741-873 | the transaction commits the complete rekey and the new key, or changes nothing |
| `StoreHandles.Store.RekeyChunks` | internal/state/store.go:771-809 | the keyset loop visits every chunk exactly once in ascending order, terminates, and reseals each plaintext |
| `StoreHandles.Store.RekeyOperations` | internal/state/store.go:811-854 | the same for operations |
| `StoreHandles.Store.WriteChunks` | internal/state/store.go:436-449 | the chunk loop writes exactly the chunks of the value, one for an empty value |
| `RekeyRecovery.CrashLeavesKeyObtainable` | internal/state/store.go:94-155 | a crash at any point of any run in which every rekey starts with the keychain holding the handle's key lets the next open obtain the key in force |
| `RekeyRecovery.StepKeepsAccess` | internal/state/store.go:741-879 | keychain key equals database key, or the recovery record opens under the keychain key to it; every step keeps that |
| `RekeyRecovery.RekeySafeExactlyInStep` | internal/state/store.go:755-764 | after a rekey commits, a crash is recoverable if and only if the keychain holds the handle's old key or already the new one |
| `RekeyRecovery.SecondRekeyLocksOut` | internal/state/store.go:755-879 | a second rekey in the same process after a failed activation, then a crash, leaves no obtainable key |
| `RekeyRecovery.ObtainedExactly` | internal/state/store.go:94-155 | the key obtained at opening is the keychain's, or the one sealed for it in the recovery record, exactly when it has 32 bytes and is the one in force |
| `RekeyRecovery.RekeySettles` | internal/state/store.go:741-879 | a rekey whose activation succeeds leaves the new key in marker, handle and keychain, the same contents, and no record |
| `RekeyRecovery.FailedRekeyRecovers` | internal/state/store.go:94-155 | one whose activation fails runs on under the new key; after a crash the next open puts it into the keychain and drops the record, with the same contents |
| `RekeyRecovery.RefusedRecoveryCloses` | internal/state/store.go:94-155 | recovery with a keychain that refuses the key closes the store and changes nothing |
| `RekeyRecovery.OpenSettles` | internal/state/store.go:94-155 | opening with the key in force in the keychain drops a leftover record, if it can, and runs |
| `RekeyRecovery.RefusedChangesNothing` | internal/state/store.go:741-764 | a rekey with a key of another size, or under a stale handle, changes nothing |
| `Eviction.StateStore.PurgeExpired` | internal/state/store.go:525-530 | a row is kept, unchanged, if and only if it was there and has not expired before now |
| `Eviction.StateStore.Evict` | internal/state/store.go:963-1002 | what has expired goes first; then a needed prefix of the order (attachment, body, event, metadata, the rest; oldest access first). Exactly the unexpired rows stay when they fit, at most the limit is left, and it fails exactly when reservations alone exceed it |
| `Eviction.EvictedIsShortest` | internal/state/store.go:963-1002 | with distinct access times every prefix whose removal fits contains what was removed |
| `Eviction.EvictedUnique` | internal/state/store.go:963-1002 | and the outcome is determined |
| `Eviction.EvictedNothing` | internal/state/store.go:963-967 | nothing is removed when everything fits |
| `Eviction.StateStore.EvictKind` | internal/state/store.go:968-997 | one inner loop: deletes oldest rows of its kind until it fits or the kind is exhausted |
| `Eviction.StateStore.Put` | internal/state/store.go:297-331 | refused exactly when the value alone cannot fit beside the reservations, and then exactly the unexpired rows stay; otherwise the total ends within the limit, and when the row and the unexpired others fit, exactly they are left, each with its value |
| `Eviction.StateStore.Mutate` | internal/state/store.go:333-370 | the same for read, transform and write of an unexpired entry; a refusal changes nothing |
| `Eviction.StateStore.PutOperation` | internal/state/store.go:569-616 | the eviction after a stored operation never fails, and the total ends within the limit |
| `FramedKeys.KeysInjective` | internal/service/service.go:3355-3361 | two lists of parts have the same key if and only if they are equal |
| `FramedKeys.DecodeUndoes` | internal/service/service.go:3355-3361 | a decoder undoes the framing, whatever bytes the parts hold |
| `FramedKeys.BuildFramedCacheKey` | internal/service/service.go:3355-3361 | the builder loop writes the framed parts |
| `FramedKeys.AttachmentKeysInjective` | internal/service/service.go:1829-1833 | attachment keys, a framed message key with a suffix, differ unless mailbox, generation, message and attachment are the same |
| `ContentLines.UnfoldUndoesFold` | internal/calendar/ics.go:859-870 | unfolding a stream of folded lines returns the lines and the trailing empty one |
| `ContentLines.FoldedLinesFit` | internal/calendar/ics.go:956-973 | no physical line is longer than 75 octets |
| `ContentLines.FoldLine` | internal/calendar/ics.go:956-973 | the rune loop writes the folded line |
| `ContentLines.FoldIsPieces` | internal/calendar/ics.go:956-973 | a folded line is its physical lines joined by CRLF |
| `ContentLines.UnfoldLines` | internal/calendar/ics.go:859-870 | the loop joins continuations to the line before |
| `ContentLines.UnescapeUndoesEscape` | internal/calendar/ics.go:975-981 | unescaping an escaped value returns it with CRLF as LF; an escaped value holds no LF |
| `TextForms.OctetsAreUtf8` | internal/calendar/ics.go:956-973 | the octets counted are those of the UTF-8 encoding |
| `TextForms.FoldedAsLateAsPossible` | internal/calendar/ics.go:956-973 | a line within 75 octets is left alone; a longer one is broken only before a character that no longer fits |
| `TextForms.AnyFoldIsUndone` | internal/calendar/ics.go:859-870 | a line broken anywhere, with CRLF or LF, before spaces or tabs, is read as it was |
| `TextForms.EscapedHasNothingBare` | internal/calendar/ics.go:975-981 | in an escaped value no comma, semicolon or line break stands outside a pair |
| `TextForms.PairsAreRead` | internal/calendar/ics.go:975-981 | what is read for each pair, in both cases of N, and for a backslash that begins none |
| `TextForms.FrameIsText` | internal/service/service.go:3355-3361 | a framed part is its length in decimal, a colon and its bytes |
| `TimezoneData.DeduplicateTransitions` | internal/calendar/timezone.go:316-326 | the loop over its own slice keeps the last of each run of equal times |
| `TimezoneData.LastOfRunsFacts` | internal/calendar/timezone.go:316-326 | over sorted transitions what is kept is strictly ascending and exactly the last of every time |
| `TimezoneData.IndexTypes` | internal/calendar/timezone.go:174-201 | the types are the initial one and those of the transitions in the order they come into force, each once, and every index names its transition's; it fails exactly without transitions and above 256 types |
| `TzifFormat.BuildTzif` | internal/calendar/timezone.go:328-381 | the loops write the two blocks and footer; refused exactly when an abbreviation's position does not fit an octet |
| `TzifFormat.FileReadBack` | internal/calendar/timezone.go:341-381 | a decoder written from section 3 of RFC 8536 reads the file back as the same times, indexes and types |
| `TzifFormat.VersionOneRestricts` | internal/calendar/timezone.go:358-365 | the version-1 block has exactly the transitions that fit 32 bits, in order, each with its own index |
| `TzifFormat.DescribedTells` | internal/calendar/timezone.go:172-206 | times and indexes that describe the kept transitions tell at every instant the change in force |
| `TzifFormat.EmbeddedZone` | internal/calendar/timezone.go:172-206 | compaction, indexing and writing together: the file, read back, says at every instant the offset, flag and name of the last listed transition not after it, and before all of them what the first one changed from; its version-1 block says the same of the times of 32 bits. It fails exactly without transitions, above 256 types, or when the names before the last type take more than 255 octets |

## Left out

- RangeExpansion.ParseRange: does not model parsing, zones with daylight saving time, the repeated hour, or the textual form of occurrence ids, which are pairs of UID and start here; a refusal is proved genuine, but which of several possible refusals comes is not stated.
- RecurrenceRules.FastForwardRule: the calendar arithmetic of the rrule library (BYDAY, BYSETPOS and the like) is an arbitrary predicate on instants.
- MailSearch.SearchContext: previews, IMAP errors and the messages' other fields are not part of this model.
- Pagination.SearchMessages: source errors, connections marked failed and the stale fallback are not part of this model.
- OfflineCache.CachedMailResult: the broad per-mailbox index, consulted when no complete scoped entry exists, and cached full-text matching are not part of this model.
- CachedTraversal.OfflineEqualsLive: assumes that no entry is evicted or expires between the pages; `CacheGaps` says what one such loss does.
- StoreHandles.Store.Get: does not model the expiry purge and the access-time update that go with a read.
- Eviction.StateStore.Evict: between rows with equal access times the one with the least row id goes first, where the database leaves the choice open.
- ExecutionProtocol.AtMostOneExecution: tokens are fresh, and the provider call is one step whose outcome is arbitrary.
- PreparedPayload.DigestPayload: the hash is what was hashed, so its framing of the parts is not examined.
- TzifFormat.BuildTzif: the reader of Go's time package is not modelled; the decoder here follows the RFC.
- JSON, SQLite, the keychain, file locks, SHA-256 and XChaCha20-Poly1305 themselves.
- `UpdateOperation` without a status guard, `Clear`, `ClearConnection`, statistics, and migration of old schemas and keys.
- Network clients, HTTP, MCP and REST handlers, configuration, policy tables, the terminal interface, and MIME, HTML and PDF conversion.
