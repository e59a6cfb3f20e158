# Verified model of the car-listing monitor

The product watches car searches for several users on one desktop machine and talks to a
small licence service. This project models the parts of it in which mistakes are hard to
see by testing, and proves what they promise over every input and every interleaving.

| files | what they model |
|---|---|
| Wrappers, Characters, Decimals, TextOrder, Sorting, Grouping | shared shapes: results, characters, decimal text, string orders, a stable sort, insertion-ordered grouping |
| Listing, ListingLaws, Merging | the `details` document of a listing, material changes, fingerprints, and the merge of a freshly read page into what is known |
| Ledger, LedgerUpdates, LedgerRuns, LedgerReports, LedgerHistory, LedgerSearch, LedgerRereads, LedgerExamples | the car record shared by all projects, what one update does to it, what each project last saw of it, what each project is told, and runs that show where a promise fails |
| ScanPass, ScanReads | one project's pass over a verified search result: rows, probes, results, absence; which reads it orders and what they come to |
| RunQueue, RunQueueRuns, RunQueueSteps | the durable scan-run queue with its single worker, what every step does to a row, and what can have ended one |
| DetailWorkers, DetailWorkersRuns, StartSlots | the bounded pool of detail readers, step by step, and its start-rate reservation |
| CanonicalJson, CanonicalJsonReading, CanonicalJsonLaws | the canonical JSON text that licence signatures cover, in Python and in TypeScript |
| PriceFilter, PriceFilterEdit, PriceFilterLists | reading and editing the price condition in an Encar search, as text and as a list of conditions |
| Pagination | collecting every page of a search |
| TrustedClock, TrustedClockRuns | the local licence state and its guard against clock rollback |
| Idempotency, IdempotencyRuns | the at-most-once protocol of the licence service |
| ReportDedupe, ReportDedupeLaws, ReportMerging | merging report items so that a vehicle appears once |
| VehicleGroups, VehicleGroupsLaws | showing the listings of one vehicle together |

Where the source updates state step by step, a class or a method with loops does the same
and is proved equal to a function on values (`Upserted`, `AfterClaim`, `Edited`, `Dedupe`,
...). What the system promises is then proved of those functions, over whole runs of
steps where it is a promise about runs, and in terms of what goes in and comes out: every
main operation has laws that say exactly what it does without the function that computes it. Each database transaction, claim, queue operation
and file update is one atomic step. Times are integers. Hashes and signatures are
injective: a digest stands for the document it was taken of.

Run `dafny verify dfyconfig.toml` to check everything.

## What the proofs found

- A project that rereads the very price and content it saw last can still be told of a
  price change from that price to itself: the status belongs to the record that all
  projects share, and another project that saw the price fall and rise again leaves its
  status there. `LedgerExamples.PriceThatCameBackIsTold` is such a run, and
  `LedgerRuns.UnchangedCarIsQuiet` says exactly what is told of an unchanged car.
- A project can miss that a sold car is for sale again. `LedgerRuns.ReturnFromSoldIsTold`
  gives the exact condition: the price it saw, another fingerprint, and no material
  difference to what it saw. `LedgerExamples.ReturnThatIsNotTold` is a run from the empty
  ledger: another project's manual refresh finds the car with a newly listed
  specification, and the next scan of this project passes over it in silence.
- A price of zero is stored as the current price but never reaches the price history
  (`LedgerHistory.ZeroPriceIsNotInTheHistory`).
- An established condition entry would be overwritten by an entry that carries no grade
  (`Merging.EstablishedConditionLost` is exact, `LedgerExamples.UngradedEntryLosesConfirmation`
  a losing page). The page reader grades every entry, and then nothing is lost
  (`Merging.EstablishedConditionNeverLost`).
- A car that is already sold is never read again by a project scan, and a complete scan
  counts it as missing even while a result page shows it (`ScanPass.SoldCarIsLeftAlone`).
- Writing a price and removing it again does not restore the malformed action "(And..)",
  nor an action that does not end in ".)" (`PriceFilterEdit.RemovingRestores`).
- Python sorts keys by code points and JavaScript by UTF-16 units, so the two canonical
  printers differ on keys such as U+FFFD and U+10000. `AlikeUnlessCrossing` and
  `PrintersAgreeExactlyWhenPortable` in CanonicalJsonLaws say exactly when they agree.
- A signed request runs at most once exactly as long as no call is still acting 23 hours
  and 50 minutes after it arrived (`IdempotencyRuns.AtMostOnceExactly`).
- A refusal as expired that was not recorded can be undone by turning the wall clock back,
  exactly when the lease runs beyond everything that was recorded
  (`TrustedClockRuns.UnrecordedRefusalIsFinalExactly`).
- A batch of inserts that took effect although it was reported to have failed leaves its
  request unrun and its key blocked for a day (`IdempotencyRuns.LostInsertBlocksItsKey`).
- Merging a report loses a project name when only an item that is not chosen as the
  representative names a project (`ReportDedupeLaws.ProjectsAreKeptExactly`), and the same
  holds for a listing id. Items without any identity are merged into one.
- Asking the worker pool for more results than tasks blocks for ever
  (`DetailWorkersRuns.NothingComesAfterTheLast`); its only caller asks for as many.

## Model

| member | source | states |
|---|---|---|
| `Listing.NoMaterialChange` | backend/app/parser.py:615-645 | the list of material changes is empty exactly when every compared field, option and condition entry is the same, new specification fields excepted |
| `Listing.SameListingTransitive` | backend/app/parser.py:615-645 | "no material change" is transitive despite the one-sided exemption |
| `Listing.NewSpecIsOneSided` | backend/app/parser.py:581-645 | a specification field that appears is no change, and its disappearance is one |
| `ListingLaws.ChangesAreTrueAndComplete` | backend/app/parser.py:615-655 | every reported change is a difference of the two documents with the values they give, and unless twelve are reported every difference is |
| `ListingLaws.FingerprintsAgreeExactly` | backend/app/parser.py:648-692 | two documents have the same fingerprint exactly when they agree on every hashed field, on the offer type, and on status and value of every condition entry |
| `ListingLaws.SayingNothingIsASale` | backend/app/parser.py:616-617 | an offer type that is absent or says nothing is a sale, any other stands as it is |
| `ListingLaws.PriceIsRead` | backend/app/services.py:200-208 | a document sets a price exactly when it read a number at one of the three price anchors of the listing itself |
| `ListingLaws.AccidentsCompare` | backend/app/parser.py:658-671 | accident texts are the same exactly when status, summary and the compared part of every condition entry are |
| `Merging.MergeReliableDetail` | backend/app/services.py:44-124 | the merge, with the loops of the source, is the merge function of live and sold pages |
| `Merging.MergeConditionEntries` | backend/app/services.py:104-117 | the condition loop keeps an established entry against an unverified one and takes every other new entry, in any order |
| `Merging.LivePageAt` | backend/app/services.py:74-98 | a live page wins for every plain field it has, except that null, empty or UNVERIFIED leaves a known stable field as it was |
| `Merging.LiveSummaryIs` | backend/app/services.py:118-122 | the summary of the condition is left alone exactly by a page that could not verify it |
| `Merging.LiveOptionIs` | backend/app/services.py:100-103 | options are added to the known ones and win over them |
| `Merging.LiveConditionIs` | backend/app/services.py:104-117 | a condition entry of a live page is taken unless it is UNVERIFIED and the known one CONFIRMED or NOT_FOUND |
| `Merging.SoldPageAt` | backend/app/services.py:45-72 | a sold page of a known listing sets its thirteen identity and availability fields and no other |
| `Merging.StableFieldStaysKnown` | backend/app/services.py:75-98 | one merge never makes a known stable field null, empty or UNVERIFIED |
| `Merging.StableFieldNeverLost` | backend/app/services.py:44-124 | no sequence of live and sold pages makes a known stable field null, empty or UNVERIFIED |
| `Merging.EstablishedConditionLost` | backend/app/services.py:104-117 | an established condition entry is lost exactly when a live page brings an entry that is neither unverified nor established |
| `Merging.EstablishedConditionNeverLost` | backend/app/services.py:104-117 | over any sequence of graded pages an established entry stays established |
| `Merging.MergeFingerprint` | backend/app/services.py:71-124 | a merged document stores its own fingerprint |
| `Merging.MergeIdempotent` | backend/app/services.py:44-124 | merging the same live page twice is merging it once |
| `Merging.SoldPageKeepsListing` | backend/app/services.py:45-72 | a sold page makes no material change, keeps the fingerprint and brings no price |
| `Ledger.AnnounceStatus` | backend/app/services.py:235-271 | the new status and the event that announces it |
| `Ledger.NoteDetailChanges` | backend/app/services.py:273-300 | the mileage and accident events of an update |
| `Ledger.SeeLink` | backend/app/services.py:310-345 | the project link after an update, and its relisted event |
| `Ledger.StoreMerged` | backend/app/services.py:184-356 | an accepted update, statement by statement: car, link, snapshots, history and events |
| `Ledger.MarkOneAbsent` | backend/app/services.py:412-462 | one turn of the absence loop: link, car, event and report |
| `Ledger.CarLedger.UpsertDetail` | backend/app/services.py:160-356 | an update is refused for a foreign listing or disabled tracking and then changes nothing; else the one file becomes `Upserted` and no other file changes |
| `Ledger.CarLedger.UpsertPriceStatus` | backend/app/services.py:131-157 | a price probe is stored as the document built from it |
| `Ledger.CarLedger.MarkFoundWithoutDetail` | backend/app/services.py:359-390 | a sighting resets the project link, and reports a relisting exactly when it was missing |
| `Ledger.CarLedger.MarkAbsent` | backend/app/services.py:393-462 | every tracked listing of the project, and no other, moves by the absence rules, and the reports come in row order |
| `Ledger.CarLedger.RemoveCarFromProject` | backend/app/main.py:1302-1323 | removal ends tracking for one project and keeps the shared record |
| `Ledger.CarLedger.ObserveDetail` | backend/app/worker.py:439-504 | a finished read is stored, compared with what this project saw last, and remembered |
| `LedgerUpdates.ReadIsRefusedExactly` | backend/app/services.py:167-182 | a read is refused exactly for a page for sale of another listing or a car nobody wants, and then changes and tells nothing |
| `LedgerUpdates.StatusAfterUpdate` | backend/app/services.py:235-271 | the status after an update: sold exactly when the page says so, else the direction of a price move, else updated for a return or another description, else as it was |
| `LedgerUpdates.RecordAfterUpdate` | backend/app/services.py:200-234 | document, price, fingerprint and history after an update, over the page and the file before |
| `LedgerUpdates.LinksAfterUpdate` | backend/app/services.py:310-333 | an update touches only the link of its project |
| `LedgerUpdates.SnapshotsExactly` | backend/app/services.py:347-353 | a known car gets a snapshot of what was stored exactly when the price moved, the description differs materially or it turned sold |
| `LedgerUpdates.FirstUpdate` | backend/app/services.py:187-198 | a first read always leaves a snapshot and is announced as new |
| `LedgerUpdates.EventsOfUpdate` | backend/app/services.py:235-345 | the log gets exactly the events there is reason for, with their values, each once |
| `LedgerUpdates.LiveProbeAt` | backend/app/services.py:131-157 | a probe of a car for sale writes price, offer, identity and times, and leaves every other plain field |
| `LedgerUpdates.SoldProbeAt` | backend/app/services.py:131-157 | a probe of a sold car keeps price, offer and description of the known document |
| `LedgerUpdates.SightingExactly` | backend/app/services.py:359-390 | a sighting sets the link of a wanted car to found with counter zero, logs a relisting exactly if it was lost, and changes nothing else |
| `LedgerUpdates.SearchEndsExactly` | backend/app/services.py:393-462 | what the end of a complete search does to one file, what it logs, and that it reports the same |
| `LedgerUpdates.MissingIsCountedExactly` | backend/app/parser.py:731-742 | a search that failed moves nothing, one that finds resets, one that misses counts |
| `LedgerUpdates.ReportsFollowRows` | backend/app/services.py:393-462 | the reports of a completed search are exactly those of its rows, in their order |
| `LedgerRuns.StepKeepsValid` | backend/app/worker.py:439-504 | every step keeps the ledger invariant, for any project |
| `LedgerRuns.RunKeepsValid` | backend/app/services.py:347-353 | after every interleaving the newest snapshot has no material difference to the stored details, and each project's observation describes the car it saw |
| `LedgerRuns.PreviousIsWhatWasSeen` | backend/app/worker.py:439-478 | the state a report compares with has the price, status, fingerprint and offer type that this project saw |
| `LedgerReports.ReportExactly` | backend/app/worker.py:570-645 | what a look tells a project that saw the car before: the end of a sale once, another type of offer, a price that fell as a drop and one that rose as an increase with both prices, another description with the differences to the snapshot it saw |
| `LedgerReports.FirstLookIsNew` | backend/app/worker.py:578-581 | a project's first look at a car is told as new with the current price, whatever others saw |
| `LedgerReports.StatusOnLookIs` | backend/app/services.py:235-271 | the status a look leaves, over the record before it and the document it stores |
| `LedgerReports.LooksExactly` | backend/app/worker.py:845-859 | which reads and rows are looks: a wanted car, the same listing, and for a row a known car that is not sold |
| `LedgerReports.OnlyLooksAreTold` | backend/app/worker.py:839-924 | refused reads, passed-over rows, failed reads and removals are told to nobody, and the first two change nothing |
| `LedgerReports.SearchIsToldAsLogged` | backend/app/worker.py:1177-1215 | what the end of a complete search tells the project is what it logs, and nothing for a car nobody wants |
| `LedgerReports.LookIsRemembered` | backend/app/worker.py:481-504 | a look leaves the newest snapshot, price, fingerprint and status of the record with the project |
| `LedgerReports.UnobservedLink` | backend/app/worker.py:439-478 | a link without an observation is compared with the record as it stands, a sold record of a live document counting as updated |
| `LedgerReports.RemovalIsFinal` | backend/app/main.py:1302-1323 | over any later steps of any projects, a project that removed a listing neither looks at it nor is told about it again |
| `LedgerRuns.SilenceLosesNothing` | backend/app/worker.py:570-645 | a silent look proves that price and offer type are those this project saw last, or that it knew the car was sold |
| `LedgerRuns.UnchangedCarIsQuiet` | backend/app/worker.py:570-645 | what a project is told of a car with the price and fingerprint it last saw: its status if that is another one, else that a lost listing is back, else nothing; so it is silent exactly when the shared status is as it saw it and no lost listing is found |
| `LedgerRereads.FirstReadIsNewThenSilent` | backend/app/worker.py:570-645 | the first read of a new listing is told as new, and reading the same content at another time and in another scan is silent |
| `LedgerRuns.ReturnFromSoldIsTold` | backend/app/worker.py:570-645 | the return of a car the project saw sold is silent exactly when the page and the stored details give the price it saw, another fingerprint and no material difference |
| `LedgerRereads.SameContentSaysNothingNew` | backend/app/services.py:160-356 | after a live page is stored, every page of the same content says nothing new, whatever its times, scan ids, screenshots and quoted evidence |
| `LedgerRereads.ConfirmingProbeSaysNothingNew` | backend/app/services.py:131-157 | so does a price probe that confirms price and offer |
| `LedgerRereads.RereadChangesNothing` | backend/app/services.py:160-356 | storing a page that says nothing new keeps price, status, snapshots and history, and adds at most a relisted event and one for differing accident texts |
| `LedgerRereads.QuietRun` | backend/app/services.py:160-462 | any number of steps without news, of any projects, leaves price, status, snapshots and history alone |
| `LedgerRereads.RereadsAreQuiet` | backend/app/worker.py:570-645 | after a look at a car for sale, and any reads without news, sightings, failed reads, completed searches and removals of any projects, a further look of that project is silent but for a lost listing that is back |
| `LedgerRereads.ContentIsToldOnce` | backend/app/worker.py:570-645 | the same said of pages: a content that a project read is told to it once, however many reads of that content and confirming probes lie in between |
| `LedgerExamples.PriceThatCameBackIsTold` | backend/app/worker.py:607-645 | a run in which an unchanged price and content are told as a price increase |
| `LedgerExamples.ReturnThatIsNotTold` | backend/app/worker.py:570-645 | a run in which the return of a sold car is not told |
| `LedgerExamples.UngradedEntryLosesConfirmation` | backend/app/services.py:104-117 | a page that loses an established condition entry |
| `LedgerHistory.EachPointIsAnnounced` | backend/app/services.py:200-253 | a new price point follows a different one and has exactly one price event with both prices and the right direction, unless the offer type moved too |
| `LedgerHistory.HistoryIsExplained` | backend/app/services.py:200-253 | after any run with positive prices the history ends at the current price, repeats no price, and its later points are counted by price events and offer changes |
| `LedgerHistory.ZeroPriceIsNotInTheHistory` | backend/app/services.py:220-305 | a price of zero is stored without a history point |
| `LedgerSearch.StepMovesSearch` | backend/app/services.py:327-345 | how every step moves one project's search status and counter, and how many relisted events it writes |
| `LedgerSearch.CounterCountsMisses` | backend/app/services.py:393-462 | for tracked links: missing exactly when the counter is positive, and the counter is the number of complete searches that missed the car since it was last found |
| `LedgerSearch.EveryReturnIsLoggedOnce` | backend/app/services.py:359-462 | over any run the relisted events of a project equal its returns from missing to found, although three functions can write them |
| `LedgerSearch.MissesNeverSell` | backend/app/parser.py:731-742 | however many searches miss a car, only a page or probe that says so makes it sold |
| `LedgerSearch.ConfirmingProbeAddsNothing` | backend/app/services.py:131-157 | a probe with unchanged price and offer of an unsold car adds no history point, no snapshot and no event but a possible relisting |
| `ScanPass.WalkRow` | backend/app/worker.py:839-924 | what one row leads to: passed over, a detail read, or a sighting |
| `ScanPass.WalkRows` | backend/app/worker.py:839-924 | the row loop: files, found ids and detail reads, each in terms of the state before |
| `ScanPass.ProbeMissing` | backend/app/worker.py:926-963 | exactly the tracked, unsold cars that no row showed are probed |
| `ScanPass.PlanPass` | backend/app/worker.py:839-963 | every listing gets at most one read, and exactly the one the rules order |
| `ScanPass.HandleResults` | backend/app/worker.py:1030-1165 | the result loop, in whatever order reads come back: files, found and sold ids, and when it aborts |
| `ScanPass.ScanProject` | backend/app/worker.py:839-1191 | a whole pass completes exactly when no read aborts it, and then every listing ends as the rules for one listing say |
| `ScanReads.SmallestReadExactly` | backend/app/parser.py:713-728 | which read each combination of mode and open questions leads to |
| `ScanReads.RowReadExactly` | backend/app/parser.py:713-728 | a row leads to a full read in an accurate scan or for a new car, in a fast scan to a probe exactly when list and record do not agree on a price, and to none for a sold or unwanted car |
| `ScanReads.RowIsSeenAtOnceExactly` | backend/app/worker.py:860-924 | a row without a read is a sighting on the spot, any other leaves the file to its read |
| `ScanReads.MissingReadExactly` | backend/app/worker.py:926-963 | a listing without a row is probed exactly if it is wanted and not sold, and the probe does not count as finding it |
| `ScanReads.ReadComesBackExactly` | backend/app/worker.py:839-1034 | in a completed pass a read comes back exactly for the listings that need one |
| `ScanReads.AbortsExactly` | backend/app/worker.py:1051-1130 | a result ends the pass exactly if its reader gave up or its page shows another listing for sale |
| `ScanReads.ResultExactly` | backend/app/worker.py:1051-1165 | what a result comes to: the stored page, the sighting after a failed read, found and sold |
| `ScanReads.PassSettlesPrice` | backend/app/worker.py:1102-1160 | a completed pass whose read brought a price for sale ends with that price and the car not sold |
| `ScanReads.PassEndsSale` | backend/app/worker.py:1131-1137 | a completed pass whose read says sold ends with the car sold at the price and description it had |
| `ScanReads.PassWithoutPageKeepsRecord` | backend/app/worker.py:1051-1101 | without a page a completed pass leaves the record as it was |
| `ScanReads.OtherListPriceIsSettled` | backend/app/worker.py:862-899 | a fast pass always reads a row that shows another price than the record, and leaves the price its probe found |
| `ScanPass.VisitedCarIsMissedExactly` | backend/app/worker.py:839-1191 | a tracked car on a visited page is marked missing exactly when it was sold before or its own read said so; any other is found with counter zero |
| `ScanPass.AbsentCarIsProbedAndMissed` | backend/app/worker.py:926-963 | a tracked, unsold car on no visited page is probed and counted as missed once |
| `ScanPass.SoldCarIsLeftAlone` | backend/app/worker.py:845-847 | a car sold before the pass is not read, keeps its record, and is counted as missed |
| `ScanPass.PassIsRun` | backend/app/worker.py:839-1191 | what a completed pass makes of a listing is what a run of ledger steps makes of it |
| `ScanPass.PassKeepsLedgerValid` | backend/app/worker.py:839-1191 | a pass keeps the ledger invariant |
| `RunQueue.Queue.ClaimNextJob` | backend/app/job_queue.py:28-72 | the claim takes `OldestClaimable`, or nothing under maintenance or while a run is held |
| `RunQueue.Queue.Enqueue` | backend/app/main.py:1606-1683 | the answer to a request and the table after it; a refusal leaves the table alone |
| `RunQueue.Queue.EnqueueScheduled` | backend/app/worker.py:1511-1587 | due settings add one automatic run for an idle owner and move their next time |
| `RunQueue.Queue.CancelScan` | backend/app/main.py:2069-2120 | cancelling ends queued work, asks running work to stop, and conflicts on finished work |
| `RunQueue.Queue.DetachProject` | backend/app/job_queue.py:96-158 | a deleted project leaves every active run, ending those that lose their subject |
| `RunQueue.Queue.RecoverInterruptedJobs` | backend/app/job_queue.py:161-206 | after a restart exactly the held runs become interrupted |
| `RunQueue.Queue.InterruptUnfinishedJobs` | backend/app/desktop_backup.py:517-557 | restoring a backup interrupts queued runs as well |
| `RunQueue.Queue.RequestShutdownCancellation` | backend/app/job_queue.py:209-257 | shutdown cancels queued runs and asks running ones to stop |
| `RunQueue.Queue.RequestSleepInterruption` | backend/app/job_queue.py:260-308 | sleep asks running runs to stop and names the owners to catch up for |
| `RunQueue.Queue.DeactivateOwner` | backend/app/main.py:560-617 | deactivating an account cancels its queued runs and asks its running ones to stop |
| `RunQueue.LeaveRun` | backend/app/worker.py:1441-1508 | how the worker leaves its run: cancelled, interrupted by sleep, succeeded, partial or failed |
| `RunQueueRuns.StepKeepsInv` | backend/app/job_queue.py:28-72 | every step keeps at most one held run, disjoint projects and cars per owner, and good rows |
| `RunQueueRuns.QueueIsSafe` | backend/app/job_queue.py:28-308 | over every run of the queue the invariant holds and rows only age: ranks fall, finished rows never change, a run is claimed at most once |
| `RunQueueRuns.ReachableQueueIsSafe` | backend/app/job_queue.py:28-308 | every queue reachable from an empty one has the invariant and keeps it |
| `RunQueueRuns.ClaimTakesTheOldest` | backend/app/job_queue.py:39-66 | a claim succeeds exactly when it may, takes the first claimable run by creation time and number, and touches no other |
| `RunQueueRuns.ManualRequestRefused` | backend/app/main.py:1606-1683 | a manual request is refused exactly when an active run of its owner that does not give way shares a project |
| `RunQueueRuns.AcceptedRequestAddsItsProjects` | backend/app/main.py:1606-1683 | an accepted request makes the owner's active projects the old ones plus the requested ones, and no other owner's |
| `RunQueueRuns.DueOncePerInterval` | backend/app/worker.py:1536-1587 | a setting that was due is not due again before its interval has passed |
| `RunQueueRuns.ScheduledOnce` | backend/app/worker.py:1511-1587 | running the scheduler twice at one time adds no second run |
| `RunQueueRuns.LifecyclesAreShort` | backend/app/worker.py:1441-1508 | over any run there are at most three status changes for every row there ever was |
| `RunQueueSteps.StatusAfterStep` | backend/app/worker.py:1441-1508 | which step gives an active row which status: each of the six ways to end, being asked to stop, being claimed, each exactly where it has its cause |
| `RunQueueSteps.PlainStepFields` | backend/app/job_queue.py:96-308 | time, reason, projects and current project after every step but claims and requests |
| `RunQueueSteps.ClaimedStatus` | backend/app/job_queue.py:39-66 | a claim takes the oldest queued row of an active owner when nothing is held, and changes no other |
| `RunQueueSteps.RequestIsAcceptedExactly` | backend/app/main.py:1606-1670 | every kind of request is turned down for maintenance, a missing entitlement or a row that blocks it, and else accepted |
| `RunQueueSteps.AcceptedRequestIsQueued` | backend/app/main.py:1623-1683 | an accepted request adds its row and takes its projects from exactly the queued automatic runs that hold them |
| `RunQueueSteps.ScheduledExactly` | backend/app/worker.py:1534-1587 | one scheduler pass adds one automatic run for each idle owner of a ready setting, and nothing else |
| `RunQueueSteps.SettingMovesExactly` | backend/app/worker.py:1534-1587 | a setting moves exactly when its time has come or was never set: one interval ahead, or off if it has nothing to scan |
| `RunQueueSteps.EveryEndHasItsCause` | backend/app/worker.py:1441-1508 | over every run from an empty queue, a finished row was ended by a step with the cause its status names, and has not changed since |
| `RunQueueSteps.SleepEndsWhatSlept` | backend/app/job_queue.py:260-308 | a row is interrupted by sleep only if a resume found it running and its worker left it later |
| `DetailWorkers.DetailWorkerPool.FillTaskQueue` | backend/app/detail_workers.py:160-166 | the fill loop moves as many pending tasks as fit, and none once stopped |
| `DetailWorkers.DetailWorkerPool.SubmitAll` | backend/app/detail_workers.py:102-104 | submitting replaces the pending tasks and fills the queue |
| `DetailWorkers.DetailWorkerPool.NextResult` | backend/app/detail_workers.py:106-112 | a result is taken in order and the queue is refilled |
| `DetailWorkers.DetailWorkerPool.Close` | backend/app/detail_workers.py:117-126 | closing sets both events and puts a stop mark per worker while there is room |
| `DetailWorkers.FillTakesInOrder` | backend/app/detail_workers.py:160-166 | the queue receives the first pending tasks, in order, up to its capacity |
| `DetailWorkers.FillIsPutAll` | backend/app/detail_workers.py:160-166 | the loop of the pool object is the loop of the step model |
| `DetailWorkers.CloseIsStopAll` | backend/app/detail_workers.py:117-126 | the same for closing |
| `DetailWorkersRuns.StepKeepsInv` | backend/app/detail_workers.py:72-166 | every step of coordinator and workers keeps the pool invariant |
| `DetailWorkersRuns.NoTaskIsLost` | backend/app/detail_workers.py:72-166 | in every reachable state the submitted tasks are exactly those pending, queued, being read, unread, in hand, delivered or dropped by a stop |
| `DetailWorkersRuns.EveryTakeIsOwedAResult` | backend/app/detail_workers.py:106-112 | the coordinator's blocking take always has a result waiting or a worker that can step |
| `DetailWorkersRuns.BlockedTakeIsNoDeadlock` | backend/app/detail_workers.py:106-112 | while a result is owed and nobody stopped the pool, a blocked take is no deadlock |
| `DetailWorkersRuns.WaitIsBounded` | backend/app/detail_workers.py:128-158 | every schedule of more than six worker steps per thread brings a result |
| `DetailWorkersRuns.NothingComesAfterTheLast` | backend/app/detail_workers.py:106-112 | once all tasks are delivered no schedule brings another result |
| `DetailWorkersRuns.EverythingIsDelivered` | backend/app/worker.py:1031-1034 | when the call ends without a stop it delivered the submitted tasks, each once, and the pool is empty |
| `DetailWorkersRuns.OneWorkerKeepsTheOrder` | backend/app/detail_workers.py:128-166 | with one worker results come back in submission order |
| `DetailWorkersRuns.TasksAreTakenInOrder` | backend/app/detail_workers.py:102-166 | with any number of workers, stopped or not, tasks leave the queue in submission order and none is passed over |
| `DetailWorkersRuns.FirstFinishedIsFirstDelivered` | backend/app/detail_workers.py:106-158 | results are handed over in the order in which reads ended, each with its task and outcome |
| `DetailWorkersRuns.NothingStartsAfterStop` | backend/app/detail_workers.py:114-166 | after a stop no read begins and no task enters the queue |
| `DetailWorkersRuns.PoolCanBeStopped` | backend/app/detail_workers.py:114-126 | between calls and results the pool can be cancelled and closed, and closing puts a stop mark for each worker or as many as fit and returns |
| `DetailWorkersRuns.PoolIsBounded` | backend/app/detail_workers.py:55-66 | one or two threads whatever is asked for, at most one task in the hands of each and three queued for each |
| `DetailWorkersRuns.ClosedPoolBlocksNobody` | backend/app/detail_workers.py:117-126 | after closing, a thread that is not gone can always step: none is blocked on the task queue |
| `DetailWorkersRuns.ClosedPoolEnds` | backend/app/detail_workers.py:117-158 | after closing, threads take at most three more steps each and then all are gone |
| `StartSlots.StartClock.Reserve` | backend/app/detail_workers.py:168-175 | a reservation under the lock gives the next slot of the sequence |
| `StartSlots.SlotsAreApart` | backend/app/detail_workers.py:168-175 | slots are at least the interval apart and never before their request |
| `StartSlots.SlotIsTheLatestBound` | backend/app/detail_workers.py:168-175 | slot k is the maximum over i up to k of request i plus k - i intervals |
| `StartSlots.WindowHoldsFew` | backend/app/detail_workers.py:168-175 | a window of length L holds at most L / interval + 1 starts |
| `CanonicalJsonReading.CanonicalIsReadable` | backend/app/desktop_license.py:93-109 | a reader recovers the value with sorted keys from the canonical text, whatever follows it |
| `CanonicalJsonReading.CanonicalIsPlain` | backend/app/desktop_license.py:103-108 | the text is the plain text of the value with every object in key order |
| `CanonicalJsonReading.CanonicalIsInjective` | license-service/src/crypto.ts:6-15 | equal texts come from values that are equal up to key order |
| `CanonicalJsonLaws.TextIdentifiesValue` | backend/app/desktop_license.py:93-109 | two values have the same text exactly when they are equal with objects compared as dictionaries |
| `CanonicalJsonLaws.AlikeUnlessCrossing` | license-service/src/crypto.ts:9 | both orders rank two keys alike exactly when the keys do not part across U+FFFF |
| `CanonicalJsonLaws.PrintersAgreeExactlyWhenPortable` | license-service/src/crypto.ts:6-15 | both printers give the same text exactly when both orders rank the keys of every object alike |
| `CanonicalJsonLaws.PrintersAgreeOnBasicKeys` | license-service/src/crypto.ts:6-15 | they agree on keys below the supplementary planes, ASCII in particular |
| `CanonicalJsonLaws.PrintersCanDiffer` | license-service/src/crypto.ts:9 | an object on which they differ |
| `CanonicalJsonLaws.ProofCoversEverythingElse` | license-service/src/crypto.ts:102-106 | a device signs the same text for two requests exactly when they agree on every field but the proof |
| `CanonicalJsonLaws.SignedTextIdentifiesMessage` | backend/app/desktop_license.py:219-239 | a signed text determines its message: request or lease, and every key and value it carries but the proof |
| `PriceFilter.MatchIsCondition` | backend/app/scanner.py:106-108 | the pattern matches at a place exactly when a price condition stands there |
| `PriceFilter.OneMatch` | backend/app/scanner.py:316-321 | a condition between texts without one is found, and is the only one |
| `PriceFilter.SplitAtMatch` | backend/app/scanner.py:316-321 | a single match splits the action into two texts without conditions |
| `PriceFilterEdit.ApplyPriceFilter` | backend/app/scanner.py:335-399 | the edit, with the action rebound as in the source, is the edit function, error cases included |
| `PriceFilterEdit.RemoveCondition` | backend/app/scanner.py:367-381 | removing the condition and one separator |
| `PriceFilterEdit.AmountIsReadBack` | backend/app/scanner.py:324-359 | an amount printed with thousands commas is read back |
| `PriceFilterEdit.WriteSucceeds` | backend/app/scanner.py:351-388 | a write of valid bounds succeeds exactly on an action with one condition, or none and a closing bracket |
| `PriceFilterEdit.ReadAfterWrite` | backend/app/scanner.py:310-399 | reading after writing returns exactly the bounds written |
| `PriceFilterEdit.LastWriteWins` | backend/app/scanner.py:362-366 | a later write completely overwrites an earlier one |
| `PriceFilterEdit.WriteThenRemove` | backend/app/scanner.py:367-381 | removing what a write replaced is removing the original condition |
| `PriceFilterEdit.RemovingRestores` | backend/app/scanner.py:367-391 | writing into an action without a price and removing again restores it exactly when it ends in ".)" and is not "(And..)" |
| `PriceFilterLists.BareSeparatorGoes` | backend/app/scanner.py:367-377 | where conditions are separated by a bare "_.", removing the price takes one of them with it and nothing else |
| `PriceFilterLists.ReadingIsExact` | backend/app/scanner.py:310-332 | what reading a search says: no bounds, the amounts of its only price, or the exact error |
| `PriceFilterLists.CommasEveryThree` | backend/app/scanner.py:357-359 | a printed amount has commas exactly before every third digit from the end |
| `PriceFilterLists.EditTouchesOnlyPrice` | backend/app/scanner.py:381-394 | an edit goes back to the first page, sets the price toggle, and leaves the rest of the search alone |
| `PriceFilterLists.EditIsRefusedExactly` | backend/app/scanner.py:299-388 | when an edit is refused, and with which error |
| `PriceFilterLists.PriceIsReplaced` | backend/app/scanner.py:362-366 | setting a price puts it in the place of the one in the list of conditions |
| `PriceFilterLists.PriceIsAppended` | backend/app/scanner.py:384-391 | setting a first price puts it behind the other conditions |
| `PriceFilterLists.PriceIsTakenOut` | backend/app/scanner.py:367-381 | removing the price takes it out of the list of conditions wherever it stands and keeps the others in order |
| `Pagination.CollectSearchPages` | backend/app/scanner.py:630-698 | the loop succeeds exactly when some page within the limit is the first without a successor and all up to it are good; else it returns the first failure |
| `Pagination.SuccessIsComplete` | backend/app/scanner.py:645-692 | success means the union of pages 1 to k, pages 2 to k not empty, no two pages with the same listings, k within the limit |
| `Pagination.SuccessCoversTheTotal` | backend/app/scanner.py:529-537 | k pages hold the total reported on page k, no linked page lies beyond, and no next control was enabled |
| `Pagination.EndsExactly` | backend/app/scanner.py:645-692 | the collection ends with page k exactly if k is within the limit, every page up to it was read, is not empty and repeats none, and it stops there |
| `Pagination.FailsExactly` | backend/app/scanner.py:648-664 | why a page ends the collection with an error |
| `Pagination.DisplayIsReadExactly` | backend/app/scanner.py:512-537 | the number of pages is the least that covers links and total, there is a next one exactly if a control, a link or that number says so, and another page than the requested one is refused |
| `Pagination.CollectedFromLatest` | backend/app/scanner.py:667 | each collected listing has the row of the latest page that shows it |
| `Pagination.TotalIsLatest` | backend/app/scanner.py:669-670 | the reported total is the one given last |
| `TrustedClock.LicenseState.TrustedEffectiveTime` | backend/app/desktop_license.py:242-280 | the effective time or the reason it is not trusted, and the file written |
| `TrustedClock.LicenseState.Evaluate` | backend/app/desktop_license.py:283-387 | the decision with all its refusals in order, and the file written even when the lease is then refused |
| `TrustedClock.LicenseState.Install` | backend/app/desktop_license_client.py:767-841 | an installed lease replaces binding and lease, repairs only a file that cannot be parsed, and is evaluated |
| `TrustedClock.LicenseState.Clear` | backend/app/desktop_license_client.py:868-886 | clearing forgets lease, trusted time and binding |
| `TrustedClockRuns.ActiveExactly` | backend/app/desktop_license.py:283-375 | active exactly for a signed lease of this licence and device, issued at its server time before its expiry, under a trusted clock, well formed, and in time for lease and subscription; searching exactly if it grants search and a source |
| `TrustedClockRuns.RefusedExactly` | backend/app/desktop_license.py:283-387 | each reason is given exactly in the situation it names, everything checked before being in order |
| `TrustedClockRuns.ClockRefusedExactly` | backend/app/desktop_license.py:252-268 | which files, leases and clocks the guard refuses and why, and that the effective time is the latest of clock, lease and highest time |
| `TrustedClockRuns.DeliveryIsTakenExactly` | backend/app/desktop_license_client.py:767-813 | a delivery replaces lease and binding exactly if it names the same licence and device and a recovery is fresh; any other changes nothing |
| `TrustedClockRuns.ClockIsTrustedExactly` | backend/app/desktop_license.py:261-268 | the clock is trusted exactly when the lease is newer than everything seen, or not older than the last one with the clock at most five minutes behind |
| `TrustedClockRuns.TimesNeverGoBack` | backend/app/desktop_license.py:252-279 | over any run the stored times never go back and the highest is at least the server time |
| `TrustedClockRuns.HighestIsTheLatest` | backend/app/desktop_license.py:268-279 | from a fresh installation the stored highest time is the maximum of all clocks and server times accepted |
| `TrustedClockRuns.ServerIsTheLatest` | backend/app/desktop_license.py:268-279 | from a fresh installation the stored server time is the maximum of those accepted |
| `TrustedClockRuns.HighestCoversEverything` | backend/app/desktop_license.py:268-279 | whatever an updating evaluation accepted is at most the stored highest time |
| `TrustedClockRuns.ExpiredStaysExpired` | backend/app/desktop_license.py:323-356 | a lease once refused as expired by an updating evaluation is never active again |
| `TrustedClockRuns.UnrecordedRefusalIsFinalExactly` | backend/app/desktop_license.py:268-279 | a refusal as expired that is not recorded is final exactly when lease or subscription ends by the latest of server time and stored highest time |
| `TrustedClockRuns.NewerLeaseLiftsTheBlock` | backend/app/desktop_license.py:261-268 | a lease issued after everything seen is accepted whatever the clock says |
| `TrustedClockRuns.OnlyRecoveryRepairs` | backend/app/desktop_license_client.py:815-841 | a file that cannot be parsed blocks until a signed recovery, which guards again |
| `Idempotency.LicenseDatabase.BeginIdempotentRequest` | license-service/src/database.ts:29-75 | beginning a request: both rows go in, or the exact answer; also when the batch fails for another reason, before or after taking effect |
| `Idempotency.LicenseDatabase.CompleteIdempotentRequest` | license-service/src/database.ts:102-120 | completing updates only a row still processing |
| `Idempotency.LicenseDatabase.CleanupExpiredState` | license-service/src/database.ts:197-209 | cleanup removes exactly the rows that expired before the timestamp |
| `Idempotency.LicenseDatabase.RunPublicRoute` | license-service/src/index.ts:115-160 | when the handler runs, with which rows and which answer, and the answer otherwise |
| `Idempotency.Replay` | license-service/src/index.ts:115-160 | a repeated request is answered with the first response and does not run |
| `Idempotency.ReuseKey` | license-service/src/database.ts:77-88 | another request under a key in use is refused as reused and does not run |
| `Idempotency.ReplayUnderOtherKey` | license-service/src/database.ts:64-73 | the same request under another key is refused as a replay and does not run |
| `IdempotencyRuns.ArrivalIsCheckedExactly` | license-service/src/index.ts:122-149 | a call is turned away if signed more than five minutes off, then if its key is unusable, and else goes on |
| `IdempotencyRuns.LookupAnswersExactly` | license-service/src/database.ts:40-100 | what each lookup answers: key reused, in progress, the stored response, a replay, or nothing yet |
| `IdempotencyRuns.CallActsExactly` | license-service/src/index.ts:115-160 | in each phase a call may take exactly its next operations, as long as its time lasts |
| `IdempotencyRuns.StoringIsExact` | license-service/src/index.ts:150-159 | a response is stored once; a failure stores the error instead, a second one loses the call; only a row still processing takes either |
| `IdempotencyRuns.CleanupIsExact` | license-service/src/database.ts:197-209 | cleanup removes exactly the rows that expired before its timestamp and keeps the others as they are |
| `IdempotencyRuns.CallKeepsInv` | license-service/src/database.ts:29-120 | every database step of a call keeps the invariant |
| `IdempotencyRuns.HandlersRunAtMostOnce` | license-service/src/index.ts:115-160 | under every interleaving of calls and cleanup a signed request runs its handler at most once |
| `IdempotencyRuns.AtMostOnceExactly` | license-service/src/validation.ts:92-97 | that guarantee holds over all runs exactly when no call acts later than 85 800 seconds, a day less ten minutes, after its arrival |
| `IdempotencyRuns.ReplaysAgree` | license-service/src/database.ts:77-100 | all replays get the one stored response, and so did the first caller unless storing was reported to have failed |
| `IdempotencyRuns.RetainedKeyRunsOneRequest` | license-service/src/database.ts:40-75 | two requests under one key both run only if one went in a day after the other arrived |
| `IdempotencyRuns.LostInsertBlocksItsKey` | license-service/src/database.ts:64-73 | a batch that took effect but was reported to have failed: the request does not run while its row is retained, and calls under its key are told it is in progress |
| `IdempotencyRuns.OnlyOwnersRun` | license-service/src/index.ts:138-159 | only a fresh call whose rows went in runs, and no other gets a response of its own |
| `Grouping.GroupBy` | backend/app/reporting.py:75-79 | the grouping loop gives the keys in order of first occurrence and each key's items in order |
| `Grouping.GroupsPartition` | backend/app/vehicle_groups.py:22-34 | every item is in exactly one group, as often as it occurs |
| `ReportDedupe.Choose` | backend/app/reporting.py:83-89 | the choice loop gives the preferred item |
| `ReportDedupe.DedupeReport` | backend/app/reporting.py:69-101 | the whole report, with its loops, is the deduplication function |
| `ReportMerging.VehicleAppearsOnce` | backend/app/reporting.py:18-29 | every vehicle with a change appears exactly once: by registration number up to spaces and case, else by car, else by listing |
| `ReportMerging.MergedTogetherExactly` | backend/app/reporting.py:69-97 | two items are merged into one exactly when they concern the same vehicle |
| `ReportMerging.ItemIsMerged` | backend/app/reporting.py:32-97 | what stands for a vehicle is the last item that says sold, or else the first of least priority, with all projects (its own first, then by name and number) and all listings (its own first) of the vehicle |
| `ReportMerging.ReportIsInOrder` | backend/app/reporting.py:98-101 | the report is sorted by priority, then time |
| `ReportDedupeLaws.ProjectsAreKeptExactly` | backend/app/reporting.py:32-55 | merging raw items keeps every project context exactly unless only an item that is not chosen names a project |
| `ReportDedupeLaws.ListingsAreKeptExactly` | backend/app/reporting.py:58-66 | the same for listing ids |
| `ReportDedupeLaws.DefaultOrder` | backend/app/reporting.py:6-15 | by default new cars come first, then price changes, then other updates, then the rest |
| `ReportDedupeLaws.DedupeTwice` | backend/app/reporting.py:69-101 | deduplicating again with the same priority changes nothing |
| `VehicleGroups.CollectVins` | backend/app/vehicle_groups.py:8-20 | the first loop knows for each plate exactly the VINs that listings with it give |
| `VehicleGroups.ComputeKeys` | backend/app/vehicle_groups.py:22-33 | the key of each listing |
| `VehicleGroups.GroupVehicleListings` | backend/app/vehicle_groups.py:7-42 | the whole grouping, with its loops, is the grouping function |
| `VehicleGroupsLaws.PlateIs` | backend/app/vehicle_groups.py:12-14 | the plate is the registration number without spaces and hyphens if that reads as one, else none |
| `VehicleGroupsLaws.VinIs` | backend/app/vehicle_groups.py:15-17 | the VIN is the text between spaces, in capitals, if it is 17 digits and letters without I, O and Q, else none |
| `VehicleGroupsLaws.TogetherExactly` | backend/app/vehicle_groups.py:22-34 | two listings are shown together exactly when their candidate VINs are the same single one, or both have none and the same plate |
| `VehicleGroupsLaws.VinsDecide` | backend/app/vehicle_groups.py:22-34 | no group holds two valid VINs and the same valid VIN is always together |
| `VehicleGroupsLaws.ConflictingPlateStaysAlone` | backend/app/vehicle_groups.py:29-33 | a listing without a VIN whose plate has several stays alone |
| `VehicleGroupsLaws.OrderDoesNotMatter` | backend/app/vehicle_groups.py:22-34 | who is shown together does not depend on input order |
| `VehicleGroupsLaws.GroupingIsAPartition` | backend/app/vehicle_groups.py:36-42 | every listing is shown exactly as often as it was given |
| `VehicleGroupsLaws.BestIsFirst` | backend/app/vehicle_groups.py:36-41 | an active listing is shown before an unavailable or missing one, and that before a sold one |
| `VehicleGroupsLaws.NewestFirst` | backend/app/vehicle_groups.py:38-40 | active, unavailable and sold listings each keep their input order |

## Left out

- Reading pages with a browser, screenshots, the regular expressions that extract Korean page texts, and everything in the user interface: a page, probe or detail read is an arbitrary input.
- The handlers of the licence service (license-service/src/service.ts), keys, signatures, encryption and HTTP: foreign or opaque calls. Administration routes use the same protocol with other checks.
- The different codes for a licence file that is a link, too large or not JSON: all are one refusal.
- Cookies, accounts, backups other than interrupting runs, database conversion and migrations.
- Two sessions of the database that read and write the same row at once: each transaction is one step.
- Legacy imports, aliases, snapshots that are not valid, and a pass that only sets a price-filter baseline, which neither probes nor marks cars as missing.
- Images, title, address and times of a car record, and the percentage in a price event: copied, not decided on.
- A `details`, `options` or `condition` value that is not a dictionary: the page reader never produces one.
- The limit of twelve names in a report of changed options or condition entries, and the texts "status" and "price" that a report lists beside the old and new values.
- A document whose canonical id differs from the listing that was requested: every page read for a file carries its identity.
- Heartbeats, worker ids, audit rows, per-project run rows and progress texts of a scan run.
- The path that puts a queued run into RUNNING inside `process_job` for callers that skip the claim (backend/app/worker.py:668-672): the worker claims first.
- A cancel that lands between the claim and the status test leaves a run CANCEL_REQUESTED until recovery, so no liveness is stated for claims.
- DetailWorkers.DetailWorkerPool.SubmitAll: the step model submits once per pool, as its only caller does; a second call would discard tasks that were not yet queued.
- Time-outs of thread joins, and a reader that never returns: a read is one step that ends.
- Slots before the first request: the clock is not negative when the pool starts, as a monotonic clock is not.
- Floating-point numbers, lone surrogates and integers beyond 2^53 in canonical JSON: the payloads hold none.
- URL quoting, the JSON around a search state and page parameters in the query: the edit works on the decoded state.
- Digits, spaces and letters outside ASCII in price bounds, registration numbers and VINs, and the NFKC normalisation of plates.
- Pagination.CollectSearchPages: progress messages and cancellation checks between pages are not modelled.
- Rate limits, and the order in which a licence request is parsed and its proof verified before the protocol starts.
- IdempotencyRuns.HandlersRunAtMostOnce: the retry of the desktop client with the same key and body is one of the interleavings, its waiting times are not modelled.
- The disabled enforcement mode of the licence check, which allows every search.
- LedgerRuns.SilenceLosesNothing: says nothing about a return from SOLD, because that can be silent; `ReturnFromSoldIsTold` says exactly when.
- The note that a manual refresh writes into its report when there is nothing else to tell (backend/app/worker.py:1383-1401): silence there means that note.
