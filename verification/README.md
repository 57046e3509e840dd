# Delivery assurance: protocols, paging and proof checkers

This project models the parts of the delivery assurance service that are protocols, paging automata or checkers of
evidence, and proves what they keep over whole runs.

- **Jira connector** (`JiraKeys`, `JiraCursorCodec`, `JiraPaging`, `JiraServer`, `JiraWalk`, `JiraVisited`,
  `JiraEnumeration`, `JiraExactlyOnce`, `JiraTheorems`, `JiraUniqueness`, `JiraCursorLimits`, `JiraListings`). A pull
  is a function from the text of a cursor and the answers of an untrusted client to a page with the text of the next
  cursor, or an error. Against a finite Jira that does not change, every pull moves to a lexicographically smaller
  measure; a run from the null cursor brings every issue and, in order and once, every link in scope, every mapped
  change, every board and every sprint. When there is such a run is proved exactly, in terms of the listing. The
  changelog phase has an exception, which is kept as the code has it: an issue without a history continues from the
  token of its own cursor. If it is the first issue the rest of the changelog is left out; if it is a later one the
  page repeats its cursor and is refused. And every cursor on the way must be carried: its text may not exceed 2048
  UTF-16 units, or the page cannot be written, and what was written must be read back. `JiraVisited` says which places
  a walk comes to; `JiraCursorLimits` that ordinary listings are carried; `JiraListings` gives a listing where a
  change is lost, and two on which the walk ends with an error: a later issue without a history, and a token within
  the connector's own limit that does not fit into a cursor.
- **Spreadsheet slot** (`XlsxSlot`, `XlsxLeaseTrace`). A class whose methods are the stretches of code between two
  awaits. One invariant covers the queue, the reserved bytes, the promises, the run and a log of what was done with
  the port; the log is accepted by an automaton from which exclusion and freshness of generations follow.
- **View drivers** (`ViewTrace`, `UnrankedFreshness`, `UnrankedResource`, `PmQueueResource`). One automaton says what
  a driver may do: one read at a time, the latest request wins, silence after disposal. Both drivers stay inside it
  for every interleaving, are never stuck loading, and show nothing past its validity by two clocks.
- **Authority engine** (`ConflictPairs`, `AssessmentPrefix`, `PolicyLog`). New conflict pairs form a spanning tree of
  each group; preparing from a batch agrees with preparing one fact at a time; the policy log is sequential and
  idempotent. `StringOrder` holds the order of identifiers.
- **Blocker age** (`CalendarAge`, `BlockerAge`, `BlockerAdvice`, `BlockerTheorems`, `BlockerRows`). The builder and
  the reader that checks it again: whatever is built within the limits passes every check, and while the rows of the
  build are still stored, so do the rows read back (`BlockerRows`). The day number is shown to count days.
- **Search and cursor** (`KeysetSearch`, `SealedCursor`). Reading page after page shows every row of the start once;
  cursors keep what they were issued for, expire on time and always fit.
- **Preview workers** (`PreviewWorkers`, `PreviewDecoder`), **request proof** (`MilestoneProof`), **rate limit**
  (`RateLimiter`), **documentation validator** (`DocValidator`). Smaller state machines and counting arguments.

`Wrappers` holds options, results and a few facts about sequences.

Assumptions stated as predicates: `JiraServer.Server.Valid` (a finite, stable Jira whose rows pass the connector's own
checks; nothing is assumed of its tokens but that they differ and are not empty), `JiraUniqueness.Relational` (a link
id stands for one pair of ends and is listed at both), `AssessmentPrefix.Contract` (the resolver speaks of versions it
was shown), `BlockerAdvice.Sound` (rows are keyed and ordered, a resolution carries distinct versions and an active
policy), `BlockerRows.StillStored` (what was read is stored as it was read, each version under its own id),
`KeysetSearch.Grows` (rows are only appended).

## Model

| member | source | states |
|---|---|---|
| JiraKeys.SmallerIsSymmetric | packages/connectors-jira/src/index.ts:654-747 | the endpoint that emits a link is the same seen from either end |
| JiraPaging.CollectItems | packages/connectors-jira/src/index.ts:1187-1201 | the item loop either refuses the chunk because of a malformed or unmappable item, or collects exactly the records of its mapped items under their numbers in the history |
| JiraPaging.RunIsUnique | packages/connectors-jira/src/index.ts:992-1292 | following the cursors from one start gives at most one finished run |
| JiraServer.TokenIndexFinds | packages/connectors-jira/src/index.ts:954-991 | a token leads back to the position it was handed out for |
| JiraWalk.AdvanceDecreases | packages/connectors-jira/src/index.ts:912-941 | from every landed place the next one has a smaller measure: phase, then issues, then histories, then items or sprints left |
| JiraWalk.PullAt | packages/connectors-jira/src/index.ts:992-1292 | the pull at a landed place hands the page contract exactly that place's records and the cursor of the place after it, unless the search answers with a token the connector refuses |
| JiraWalk.DeafFails | packages/connectors-jira/src/index.ts:251-257 | where the search answers with a token that holds a NUL or is over 2048 units, the pull fails |
| JiraWalk.ScanFinds | packages/connectors-jira/src/index.ts:954-991 | the one-issue search finds the issue a place stands at, and the token to the next |
| JiraExactlyOnce.Lands | packages/connectors-jira/src/index.ts:1042-1062 | recursing across empty phases changes neither the answer nor what is still to come |
| JiraExactlyOnce.PlaceStands | packages/connectors-jira/src/index.ts:992-1292 | the records of a page plus what comes after it are what was to come before it; the page has records, at most 100, none twice |
| JiraExactlyOnce.PullFrom | packages/connectors-jira/src/index.ts:942-1292 | what a pull from a cursor's text answers, off the excepted issue: the page and the text of the next cursor, INVALID_RESPONSE where the search answers with a token that is refused or the next text would be too long, PERMISSION_DENIED where no project is selected |
| JiraExactlyOnce.WalkFrom | packages/connectors-jira/src/index.ts:942-1292 | from any visited place with no obstacle ahead there is a finished run over texts, and its records are what was still to come |
| JiraTheorems.PullMakesProgress | packages/connectors-jira/src/index.ts:942-1292 | each such pull, exactly if its token is taken and its next cursor can be written, succeeds and ends the walk or strictly decreases the measure with a non-empty page |
| JiraTheorems.StuckFails | packages/connectors-jira/src/index.ts:1159-1176 | a later issue without a history makes the pull fail: its page would repeat the cursor, which the page contract refuses |
| JiraTheorems.NoRun | packages/connectors-jira/src/index.ts:942-1292 | no run ends behind an obstacle: a later issue without a history, a token that is refused, or a cursor that cannot be written or read back |
| JiraTheorems.RunExists | packages/connectors-jira/src/index.ts:942-1292 | a finished run from the null cursor exists exactly when the first issue has no history or all issues have one, and at every place the walk comes to the token is taken and the cursor fits, by its token, key, offsets and length |
| JiraTheorems.EveryRun | packages/connectors-jira/src/index.ts:992-1292 | every finished run brings every issue, only listed issues, and the other records exactly as walked, in order and nothing else |
| JiraTheorems.EverythingIffChangelogComplete | packages/connectors-jira/src/index.ts:942-1292 | a run that brings all links, changes, boards and sprints exists if and only if no issue lacks a history, or the first does and no change is mapped, and all cursors are carried |
| JiraVisited.AdvanceVisits | packages/connectors-jira/src/index.ts:992-1292 | the places at multiples of the page sizes, and the starts of phases with something left, are exactly those the walk comes to: from one of them it goes to the next, leaving none out |
| JiraVisited.GoodSteps | packages/connectors-jira/src/index.ts:942-1292 | all cursors from a place on are carried exactly if its own is, that of the place it lands at, and all from the next place on |
| JiraCursorLimits.OrdinaryIsCarried | packages/connectors-jira/src/index.ts:344-431 | with tokens of at most 1888 escaped units without NUL, and at most a million histories of an issue, boards, and sprints of a board, every cursor is carried |
| JiraListings.ChangeIsSkipped | packages/connectors-jira/src/index.ts:1159-1176 | a concrete listing on which the walk ends normally and the one change it should bring is never brought |
| JiraListings.LaterIssueStops | packages/connectors-jira/src/index.ts:1159-1176 | a concrete listing whose second issue has no history: the pull that asks for it fails, and no run ends |
| JiraListings.LongTokenStops | packages/connectors-jira/src/index.ts:412-431 | a concrete listing with a token the connector takes and no cursor can hold: the first pull fails, although the changelog is complete |
| JiraUniqueness.LinkRecorded | packages/connectors-jira/src/index.ts:654-747 | a listed link has a record if and only if both of its ends are in scope |
| JiraUniqueness.LinksOnce | packages/connectors-jira/src/index.ts:654-747 | no link has two records, although it is listed at both ends |
| JiraUniqueness.LogHas | packages/connectors-jira/src/index.ts:748-804 | the changelog brings a record exactly for each mapped item, under the ids of its issue and history and its number there |
| JiraUniqueness.LogOnce | packages/connectors-jira/src/index.ts:748-804 | no change has two records |
| JiraUniqueness.SprintsOnce | packages/connectors-jira/src/index.ts:1245-1289 | no board and no sprint of a board has two records |
| JiraUniqueness.NoEntityTwice | packages/connectors-jira/src/index.ts:992-1292 | a complete walk names no link, change, board or sprint twice |
| JiraCursorCodec.ReadArrayWritten | packages/connectors-jira/src/index.ts:350-431 | every array that is written is read back, across the escapes of section 7 of RFC 8259 |
| JiraCursorCodec.TextInjective | packages/connectors-jira/src/index.ts:412-431 | different cursors have different texts |
| JiraCursorCodec.NeverLegacy | packages/connectors-jira/src/index.ts:350-356 | no cursor's text is taken for a token from before cursors had phases |
| JiraCursorCodec.RoundTrip | packages/connectors-jira/src/index.ts:344-431 | a cursor can be written exactly if its token, key and offsets are short enough together; written, it survives parsing exactly when its token is bounded, its key an issue key and its offsets in range |
| JiraCursorCodec.DecodeText | packages/connectors-jira/src/index.ts:350-410 | the text of a cursor is read as that cursor or refused, never as another |
| JiraCursorCodec.TextUnits | packages/connectors-jira/src/index.ts:412-431 | the length of a cursor's text in UTF-16 units, from its escaped token, its key and its digits; the text holds no control character |
| XlsxLeaseTrace.IdsAreDistinct | apps/api/src/synthetic-xlsx-slot.ts:74-78 | different counter values have different identifiers |
| XlsxLeaseTrace.IdLength | apps/api/src/synthetic-xlsx-slot.ts:38-78 | an identifier is its prefix and sixteen digits exactly up to the last counter value |
| XlsxLeaseTrace.ExchangesAreDisjoint | apps/api/src/synthetic-xlsx-slot.ts:172-219 | of two exchanges the first has ended before the second starts, and the second has the later generation |
| XlsxLeaseTrace.ExchangeGenerationIsGranted | apps/api/src/synthetic-xlsx-slot.ts:172-219 | an exchange's generation is the initial one or the one just acknowledged for the reset of its predecessor |
| XlsxLeaseTrace.ExchangeTextsDiffer | apps/api/src/synthetic-xlsx-slot.ts:74-78 | no generation text is used by two exchanges |
| XlsxLeaseTrace.FreshTextsDiffer | apps/api/src/synthetic-xlsx-slot.ts:74-78 | no identifier is handed out twice, for jobs or generations |
| XlsxLeaseTrace.LeaseFollowsReset | apps/api/src/synthetic-xlsx-slot.ts:160-218 | a later lease follows at once on an acknowledged reset, so nothing of the earlier one is pending |
| XlsxSlot.Slot.Create | apps/api/src/synthetic-xlsx-slot.ts:68-72 | which limits are accepted, and that the slot starts valid |
| XlsxSlot.Slot.Submit | apps/api/src/synthetic-xlsx-slot.ts:95-131 | exactly when a request is admitted, that otherwise nothing changes, and where an admitted job goes |
| XlsxSlot.Slot.Pump | apps/api/src/synthetic-xlsx-slot.ts:160-170 | an idle slot leases the first queued job still in time and fails those before it |
| XlsxSlot.Slot.Cancel | apps/api/src/synthetic-xlsx-slot.ts:143-151 | the only effect on an unsettled job, queued or active; none on a settled one |
| XlsxSlot.Slot.Check | apps/api/src/synthetic-xlsx-slot.ts:153-158 | exactly when a run may go on, and what a refusal does |
| XlsxSlot.Slot.BeginRun | apps/api/src/synthetic-xlsx-slot.ts:172-177 | a lease begins under a fresh identifier, or fails with the identifiers used up |
| XlsxSlot.Slot.ChunkArrives | apps/api/src/synthetic-xlsx-slot.ts:178-184 | exactly which chunks are appended to the input; any other closes it |
| XlsxSlot.Slot.Fill | apps/api/src/synthetic-xlsx-slot.ts:182-183 | the chunk lands after what was received, which is kept |
| XlsxSlot.Slot.InputEnds | apps/api/src/synthetic-xlsx-slot.ts:185-191 | only a complete input in time is exchanged, whole, under the generation of the lease |
| XlsxSlot.Slot.ResponseArrives | apps/api/src/synthetic-xlsx-slot.ts:191-194 | exactly when the exchange goes on |
| XlsxSlot.Slot.ExchangeEnds | apps/api/src/synthetic-xlsx-slot.ts:195-199 | the job succeeds with the payload exactly if the response is complete, in time and positive |
| XlsxSlot.Slot.RunFails | apps/api/src/synthetic-xlsx-slot.ts:200-207 | every failing run settles the job and asks for a reset, gives up or releases |
| XlsxSlot.Slot.WindUp | apps/api/src/synthetic-xlsx-slot.ts:200-219 | the whole state in which a run leaves the slot |
| XlsxSlot.Slot.ResetResolves | apps/api/src/synthetic-xlsx-slot.ts:207-214 | only the exact identifier asked for frees the slot; the next live job is then leased |
| XlsxSlot.Slot.ResetRejects | apps/api/src/synthetic-xlsx-slot.ts:215-218 | a failed reset keeps the lease for good unless closed |
| XlsxSlot.Slot.Close | apps/api/src/synthetic-xlsx-slot.ts:221-230 | every unsettled job fails, the queue empties, and bytes stay reserved exactly for a run that has not returned |
| XlsxSlot.Slot.Snapshot | apps/api/src/synthetic-xlsx-slot.ts:91-93 | the counts shown are within the limits and agree with each other |
| XlsxSlot.Slot.AtRest | apps/api/src/synthetic-xlsx-slot.ts:58-231 | at rest nothing is queued, active or reserved and every admitted job has had exactly one outcome |
| XlsxSlot.Slot.HeldWhileBusy | apps/api/src/synthetic-xlsx-slot.ts:201-219 | while something of a lease is unfinished the slot is not idle |
| XlsxSlot.WithoutOne | apps/api/src/synthetic-xlsx-slot.ts:147-149 | removing a job takes out that job only, with its bytes |
| ViewTrace.SingleFlight | apps/web/src/pm-queue-resource.ts:1-2 | a read ends before the next is set up |
| ViewTrace.LatestWins | apps/web/src/unranked-milestone-resource.ts:44-48 | what is shown as ready was read after the last invalidation |
| ViewTrace.SilentAfterDisposal | apps/web/src/unranked-milestone-resource.ts:98-103 | after disposal nothing is shown or read |
| UnrankedFreshness.EarlierIsEarliest | apps/web/src/unranked-milestone-freshness.ts:18-20 | the running minimum is the earliest expiry, poisoned by anything that is not an instant |
| UnrankedFreshness.FreshnessClock.Bind | apps/web/src/unranked-milestone-freshness.ts:9-22 | the clock stays usable exactly if there are one to a thousand expiries, all instants after the report |
| UnrankedFreshness.FreshnessClock.Remaining | apps/web/src/unranked-milestone-freshness.ts:26-36 | exactly when time is left and how much; then by either clock the report is before every expiry; answers never grow and zero stays |
| UnrankedFreshness.NotPastExpiry | apps/web/src/unranked-milestone-freshness.ts:1-2 | while time is left no expiry has truly passed, for a report not older than the clock |
| UnrankedResource.Resource.Begin | apps/web/src/unranked-milestone-resource.ts:32-40 | a read is set up only if none is in flight, under the current generation |
| UnrankedResource.Resource.Start | apps/web/src/unranked-milestone-resource.ts:41-43 | the read is issued exactly if it is still wanted |
| UnrankedResource.Resource.Value | apps/web/src/unranked-milestone-resource.ts:44-48 | a wanted report in time is shown, an expired one fails, an unwanted one changes nothing |
| UnrankedResource.Resource.Catch | apps/web/src/unranked-milestone-resource.ts:49-52 | a failure shows exactly if the read is wanted |
| UnrankedResource.Resource.Finally | apps/web/src/unranked-milestone-resource.ts:53-58 | a queued refresh is read at once when the read in flight has settled |
| UnrankedResource.Resource.Deadline | apps/web/src/unranked-milestone-resource.ts:35-39 | a timed out read is invalidated, aborted and cannot be shown |
| UnrankedResource.Resource.Refresh | apps/web/src/unranked-milestone-resource.ts:60-67 | the three outcomes of a refresh and what each publishes |
| UnrankedResource.Resource.SetVisible | apps/web/src/unranked-milestone-resource.ts:68-79 | hiding drops everything; showing asks again or fails if the hidden report expired |
| UnrankedResource.Resource.Current | apps/web/src/unranked-milestone-resource.ts:80-83 | a report is returned only while by both clocks it is before every expiry |
| UnrankedResource.Resource.Check | apps/web/src/unranked-milestone-resource.ts:84-85 | a shown report past its validity fails, any other view is left alone |
| UnrankedResource.Resource.Revalidate | apps/web/src/unranked-milestone-resource.ts:86-90 | what is asked for is read again |
| UnrankedResource.Resource.ScheduleExpiry | apps/web/src/unranked-milestone-resource.ts:26-31 | a shown report has its expiry timer running or fails |
| UnrankedResource.Resource.Unavailable | apps/web/src/unranked-milestone-resource.ts:91-97 | a denial of the current read clears the view at once, any other is ignored |
| UnrankedResource.Resource.Dispose | apps/web/src/unranked-milestone-resource.ts:98-103 | disposal aborts the read and ends publishing |
| UnrankedResource.Resource.NeverStuck | apps/web/src/unranked-milestone-resource.ts:18-104 | loading always has a read that will be shown or a fresh one queued behind it; ready is live, visible and guarded |
| PmQueueResource.Resource.Refresh | apps/web/src/pm-queue-resource.ts:22-39 | the three outcomes of a refresh and what each publishes |
| PmQueueResource.Resource.Deadline | apps/web/src/pm-queue-resource.ts:30-33 | a timed out read is invalidated and aborted, and the view fails |
| PmQueueResource.Resource.Settled | apps/web/src/pm-queue-resource.ts:34-38 | a result is shown exactly if nothing came in between and it is in time |
| PmQueueResource.Resource.Finally | apps/web/src/pm-queue-resource.ts:38-44 | a refresh that came meanwhile is read now, otherwise the next one is scheduled |
| PmQueueResource.Resource.TimerFires | apps/web/src/pm-queue-resource.ts:18-21 | a hidden view only waits for the next turn |
| PmQueueResource.Resource.Dispose | apps/web/src/pm-queue-resource.ts:46-50 | disposal stops timers and aborts the read |
| PmQueueResource.Resource.NeverStuck | apps/web/src/pm-queue-resource.ts:14-49 | loading always has a read in flight that will be shown or a refresh queued behind it, and between reads the next one is scheduled |
| ConflictPairs.KeysAreDistinct | packages/data/src/authority-persistence.ts:679-687 | concatenating two identifiers does not confuse pairs |
| ConflictPairs.SpanningTree | packages/data/src/authority-persistence.ts:665-684 | a group's pairs connect any two of its versions and are one fewer than the versions |
| ConflictPairs.PairsDiffer | packages/data/src/authority-persistence.ts:665-684 | every pair joins two versions of the group with different values, in sorted order |
| ConflictPairs.CollectPairs | packages/data/src/authority-persistence.ts:661-684 | the loops find exactly the pairs of all groups, and fail exactly if some group has no differing values |
| ConflictPairs.SortMissing | packages/data/src/authority-persistence.ts:685-695 | repeated and stored pairs are left out and the rest sorted |
| ConflictPairs.MissingIs | packages/data/src/authority-persistence.ts:685-695 | the new pairs are exactly those found and not stored, once each, ascending |
| ConflictPairs.NewPairs | packages/data/src/authority-persistence.ts:661-695 | the pairs to add for the groups the resolver found |
| ConflictPairs.SecondPreparationAddsNothing | packages/data/src/authority-persistence.ts:685-695 | with the new pairs stored nothing is missing |
| AssessmentPrefix.LoadPrefixes | packages/data/src/authority-persistence.ts:504-564 | a batch is loaded exactly if it is within the limits, and each fact gets its share |
| AssessmentPrefix.BatchAgrees | packages/data/src/authority-persistence.ts:504-645 | preparing a fact from its share of a batch gives the same snapshot, resolution, completeness, numbers and new conflicts as loading it alone |
| AssessmentPrefix.SnapshotsAgreeIff | packages/data/src/authority-persistence.ts:514-605 | the two snapshots agree if and only if no stored version is beyond the fact's revision, by which only the simple path filters |
| AssessmentPrefix.PreparationsAgreeIff | packages/data/src/authority-persistence.ts:565-720 | the two preparations agree if and only if no stored version is beyond the fact's revision or both fail |
| AssessmentPrefix.LaterVersionSeparates | packages/data/src/authority-persistence.ts:514-605 | a concrete database with a version beyond the fact's revision, on which the batch prepares the fact with two versions and the simple path with one |
| AssessmentPrefix.NewConflictsAreNew | packages/data/src/authority-persistence.ts:696-708 | new conflicts are numbered consecutively above every stored one and are of pairs not stored |
| AssessmentPrefix.PreparingTwiceAddsNothing | packages/data/src/authority-persistence.ts:646-720 | a second preparation on the same groups adds no conflict |
| PolicyLog.LatestIsGreatest | packages/data/src/authority-persistence.ts:292-303 | the event found has the greatest revision among those recorded and effective |
| PolicyLog.Repository.AppendPolicy | packages/data/src/authority-persistence.ts:306-407 | every outcome: denied, replayed with the original event, conflicting key, stale revision, invalid, or appended; stored events and receipts never change, and revisions stay 1, 2, … in order of time |
| PolicyLog.Repository.Active | packages/data/src/authority-persistence.ts:282-305 | the greatest revision recorded and effective by an instant, or none |
| CalendarAge.YearLength | packages/domain/src/blocker-age-signals.ts:88-104 | the day number gives every year its length |
| CalendarAge.NextDayCounts | packages/domain/src/blocker-age-signals.ts:88-104 | the next day of the calendar has the next day number |
| CalendarAge.AgeIsDays | packages/domain/src/blocker-age-signals.ts:171-173 | the difference of day numbers is the number of days from the earlier date to the later |
| BlockerAge.ClassifyItems | packages/data/src/blocker-age-assessment.ts:392-464 | the loop classifies each item, counts the unknown ones and collects those to be aged |
| BlockerAge.AssignAges | packages/data/src/blocker-age-assessment.ts:490-498 | exactly the pending candidates get their ages |
| BlockerAge.BuildAssessment | packages/data/src/blocker-age-assessment.ts:138-576 | the loops compute the specified assessment, gates, coverage and counts |
| BlockerAdvice.EvaluateAt | packages/domain/src/blocker-age-signals.ts:137-186 | every evaluated blocker has the number of days since its date |
| BlockerAdvice.TouchedSize | packages/data/src/blocker-age-assessment.ts:254-267 | all proofs together rest on at most a thousand versions, each being of a different fact of a bounded history |
| BlockerTheorems.AuthorityOnce | packages/data/src/blocker-age-assessment.ts:290-321 | each prepared fact has exactly one authority entry |
| BlockerTheorems.ProofBinds | packages/data/src/blocker-age-advice.ts:39-50 | every resolved proof of a prepared fact can be bound |
| BlockerTheorems.CandidatesAddUp | packages/data/src/blocker-age-assessment.ts:500-567 | candidates are the excluded, unknown and assessed ones together |
| BlockerTheorems.NoOpenBlockersIff | packages/data/src/blocker-age-assessment.ts:514-562 | absence of open blockers is claimed if and only if the inventory is attested and every item excluded |
| BlockerTheorems.ReaderAccepts | packages/data/src/blocker-age-advice.ts:57-127 | whatever is built within the limits passes every check of the reader before it reads rows back, which grounds advice exactly if coverage, conflicts and access allow |
| BlockerRows.RowsPassIff | packages/data/src/blocker-age-advice.ts:128-171 | the rows read back for the bound proofs pass the checks of count, identity, provenance, source type, dependency, evidence and value exactly if no proof rests on two versions with one evidence |
| BlockerRows.ReaderAdvises | packages/data/src/blocker-age-advice.ts:57-171 | with the rows of the build still stored the reader ends without an error under exactly that condition, which evidence ids that are unique in their table meet |
| BlockerTheorems.BuildFailsIff | packages/data/src/blocker-age-assessment.ts:325-498 | building fails only if preparing a fact fails and strictness is asked for |
| KeysetSearch.AcquireSlot | packages/data/src/access-operation-search.ts:37-44 | a slot is granted exactly if one of four is free |
| KeysetSearch.ListingIs | packages/data/src/access-operation-search.ts:45-55 | the query lists exactly the matching rows after the position, newest first |
| KeysetSearch.Recheck | packages/data/src/access-operation-search.ts:61-71 | the loop passes exactly the pages that descend, match and do not repeat an identifier |
| KeysetSearch.QueryIsProper | packages/data/src/access-operation-search.ts:45-71 | the check never rejects what the query returns |
| KeysetSearch.Search | packages/data/src/access-operation-search.ts:16-74 | exactly when rows are returned |
| KeysetSearch.EveryRowOnce | packages/data/src/access-operation-search.ts:45-72 | reading page after page, keeping 30 rows or fewer and stopping without one to spare or keeping whole pages and stopping at a short one, shows the rows present at the start exactly once, newest first, whatever is appended meanwhile |
| KeysetSearch.ReadingEnds | packages/data/src/access-operation-search.ts:45-72 | on a table that stays as it is, reading ends after at most one page more than there are rows |
| SealedCursor.CeilingIsBase64 | apps/api/src/access-operation-cursor.ts:57-68 | the rounded estimate is the unpadded length of section 5 of RFC 4648 |
| SealedCursor.EstimateHolds | apps/api/src/access-operation-cursor.ts:51-60 | no token of a context and filters is longer than the estimate |
| SealedCursor.NeverTooLong | apps/api/src/access-operation-cursor.ts:51-71 | once a cursor may be issued, sealing fails only for an invalid payload |
| SealedCursor.IssuesExactly | apps/api/src/access-operation-cursor.ts:73-76 | exactly when a cursor is issued |
| SealedCursor.ChainKeeps | apps/api/src/access-operation-cursor.ts:73-106 | along a chain context, filters, issue and expiry time stay, and the position stays in the window |
| SealedCursor.PositionsDescend | apps/api/src/access-operation-cursor.ts:96-103 | each position of a chain comes after all earlier ones in the listing |
| SealedCursor.ExpiresOnTime | apps/api/src/access-operation-cursor.ts:23-30 | a cursor of a chain opens exactly from a minute before to a quarter of an hour after it was issued |
| SealedCursor.AdvancesExactly | apps/api/src/access-operation-cursor.ts:96-106 | a chain can be continued exactly in that time, with any later position in the window |
| PreviewWorkers.Lease.Load | apps/web/src/pm-reconciliation-preview.ts:83-120 | exactly when a batch gets the lease, and the first two requests |
| PreviewWorkers.Lease.TakeNext | apps/web/src/pm-reconciliation-preview.ts:94-99 | each project is taken once, in order, milestones first |
| PreviewWorkers.Lease.ReportUnavailable | apps/web/src/pm-reconciliation-preview.ts:102-109 | a denial makes both parts unavailable, nothing shows after an abort, and the callback may itself abort |
| PreviewWorkers.Lease.Settle | apps/web/src/pm-reconciliation-preview.ts:94-120 | what a settled request fills in and which request comes next, none if the callback that is shown the rows aborts |
| PreviewWorkers.Lease.Collect | apps/web/src/pm-reconciliation-preview.ts:120-123 | a returned batch has no part loading, denied projects wholly unavailable, and every request made |
| PreviewWorkers.Lease.StartPage | apps/web/src/pm-reconciliation-preview.ts:61-70 | a single page gets the lease only if no batch has it |
| PreviewDecoder.Decode | apps/web/src/pm-reconciliation-preview.ts:24-55 | exactly which pages are accepted, and that the items kept are those of the page |
| MilestoneProof.PairsSymmetric | packages/data/src/milestone-request-proof.ts:62-77 | counting pairs from either side gives the same |
| MilestoneProof.TargetsAndChildrenCorrespond | packages/data/src/milestone-request-proof.ts:51-63 | targets and child assessments correspond one to one |
| MilestoneProof.RowsArePartitioned | packages/data/src/milestone-request-proof.ts:62-82 | every version and conflict row belongs to exactly one child, of its fact |
| MilestoneProof.AccessIsExact | packages/data/src/milestone-request-proof.ts:83-91 | every source has exactly one access row, which lets the reader read, and there is no other |
| MilestoneProof.RecordedIsProven | packages/data/src/milestone-request-proof.ts:11-94 | a request is reported as recorded only for the exact identity and on a graph with these properties |
| RateLimiter.AtMostTwiceTheLimit | apps/api/src/project-update-invitation-boundary.ts:34-43 | in any half-open minute a subject passes at most 120 times |
| RateLimiter.Boundary.Sweep | apps/api/src/project-update-invitation-boundary.ts:35-35 | exactly the windows that are over are dropped |
| RateLimiter.Boundary.Admit | apps/api/src/project-update-invitation-boundary.ts:36-43 | exactly when a request passes, and how it is counted |
| RateLimiter.Boundary.Handle | apps/api/src/project-update-invitation-boundary.ts:24-56 | the answers in order, keeping at most 5000 windows |
| RateLimiter.Boundary.LimitsHold | apps/api/src/project-update-invitation-boundary.ts:23-43 | in every run with steady time, 60 per window and 120 in any minute |
| DocValidator.HasCycle | scripts/validate_documentation.py:113-120 | the walk ends, and reports a cycle exactly if the chain of parents never leaves the catalogue |
| DocValidator.WellFoundedIff | scripts/validate_documentation.py:110-120 | no cycle at all means that ancestry is well-founded, and conversely |
| DocValidator.CheckRefs | scripts/validate_documentation.py:79-91 | a reference list is accepted exactly if it is non-empty, known and without repetition |
| DocValidator.CheckTest | scripts/validate_documentation.py:147-154 | a test is accepted exactly if it names the criteria that name it |
| DocValidator.CheckStory | scripts/validate_documentation.py:137-143 | a story is accepted exactly if its own criteria cover its requirements |
| DocValidator.Validate | scripts/validate_documentation.py:59-162 | there are no problems exactly when the catalogue is sound |
| DocValidator.SoundCatalogue | scripts/validate_documentation.py:110-156 | in a sound catalogue criteria and tests are exact converses, stories are covered and ancestry is well-founded |

## Left out

- Jira records carry only what names them and the observation of a change; timestamps, hashes and payload text are not modelled, and fields that are missing or of the wrong type are folded into one malformed case.
- Jira walks start from the null cursor or from a text the connector wrote; a walk taken up from a token of before cursors had phases is not followed. Texts nobody wrote, with white space, fractions, exponents or surrogate escapes, are not read.
- Jira discovery, token refresh, rate limiting and the pages without expanded entities.
- XlsxSlot.Slot.Submit: does not model listeners or input iterators that call back into the slot while it is submitting, because a stretch of code between awaits is one step.
- Memory views of chunks and the frame codec of the slot are parameters; only the bytes and their order are kept.
- A callback given to a view driver that throws, or calls the driver while it publishes.
- UnrankedFreshness.FreshnessClock.Bind: does not parse instants; a text that is not an instant in canonical form arrives as such.
- AssessmentPrefix.BatchAgrees: is about facts without a stored version beyond their revision, which `PreparationsAgreeIff` shows to be needed; it does not compare the raw access rows handed on, which differ in rows no version refers to.
- Tables are sequences in the order in which queries return them, and a locked transaction is one step; SQL text, locks and audit rows are not modelled.
- Writing an assessment, delivering a stored one, and the resolver itself, which is a parameter with a contract.
- PolicyLog.Repository.AppendPolicy: compares the changes themselves, because the request hash is taken to be injective; inserting a revision advances the aggregate.
- BlockerTheorems.ReaderAccepts: ends before the query that reads the bound rows back; `BlockerRows.ReaderAdvises` goes on to the last check of those rows. The text of the advice is not modelled.
- BlockerAge.BuildAssessment: leaves out the order of assessments and authorities and the texts of reasons; each fact type is prepared once because item ids differ.
- Admission leases and timeouts of the search; authorization of its caller.
- SealedCursor: encryption is ideal, so forged or altered tokens simply do not open.
- Requests of the preview that report after they have settled, and callbacks that throw.
- PreviewDecoder.Decode: folds the checks of single fields into one flag per row.
- DocValidator.Validate: works on indexes with distinct ids; files, YAML types, statuses, evidence and baseline coverage are not modelled.
- Controllers, React components, OAuth, PostgreSQL and real cryptography.
