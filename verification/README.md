# ctyun-manager: verified models of its cores

This project models the parts of ctyun-manager whose correctness spans several functions or a whole state machine, and
proves what they promise. `dafny verify dfyconfig.toml` checks everything.

| files | what they model |
|---|---|
| `RegionListing`, `ListingTheorems`, `WorkerPool` | listing one resource type over regions, paths, variants and pages; what the classification and the merge mean; the worker pool under every schedule |
| `Identity`, `Phrases`, `ListingOrigins`, `ListingErrors` | the same listing said without its functions: the id by the place of its key, the tested phrases by the places of their letters, the entries by places in the provider's answers, the error texts |
| `ResourceStore`, `SyncCommit`, `SyncSafety`, `Catalogues` | the resource table, the commit loop, what any interleaving of syncs can do to stored rows, and when stored rows hold all the provider has |
| `SyncRows`, `SyncReports` | the row one sync leaves under each id, field by field, and what it reports and records, in terms of the provider's answers |
| `ActionJobs`, `Confirmation`, `Verdicts` | the action-job loop with its account guard under crashes and lost writes; when one pass confirms its job, for every action |
| `ActionRuns`, `ActionProgress`, `ActionPass` | the same loop with the resource table, the syncs and account deletion around it: what the guard gives every pass, what a completed job means in every run, and when a pass completes its job; one job as the source runs it |
| `PngDecoder`, `PngTheorems` | the PNG reader against an encoder of pixels after RFC 2083 |
| `JsonDiff`, `JsonPointer`, `JsonDiffTheorems` | the structural JSON comparison against JSON Pointer (RFC 6901) |
| `Octets`, `Fernet`, `Pbkdf2` | token encryption under a keyring, and the hand-written PBKDF2 against RFC 8018 |
| `PythonText`, `WorkflowPatch`, `WorkflowPlaces`, `WorkflowTheorems` | job conditions written into a workflow file; where each line of the result stands |
| `ShellQuote` | shell quoting against the token recognition of the POSIX Shell Command Language |
| `RechargeAmount` | the canonical form of recharge amounts |
| `PrivateIp`, `PrivateIpPlaces`, `OptionCache`, `PaymentQr` | the confirmed private address kept over syncs, the two-level option cache, the cached payment code |
| `Wrappers`, `Numbers`, `GoText` | options and results, printed decimal numbers, Go's white space: shared by the others |

Where the source changes state step by step, a method or a class does the same here and is proved against a function;
the theorems are about that function. Concurrency (the worker pool, the account guard with the job loop, the payment
operations) is a state machine whose steps are the source's critical sections. The methods beside the machines are
proved to compute what the machine's steps compute.

Parameters stand for what the models do not contain: the provider's answers (an arbitrary function of region, path,
variant and page), the field table of `Normalize`, the binding status of a payload, which transaction the database refuses, the clock, AES, HMAC,
base64, zlib, `big.Rat`'s parser and Python's number formatting. The laws assumed of them are the named predicates
`Primitives.Laws` and `Base64.Inverse`, and the length of an HMAC value is its type.

## What turned out not to hold

Each of these is stated by a lemma, with a concrete input or for every input of the failing kind, next to one that says
when the intended property does hold.

- A success may be incomplete, and then the rows it does not list are deleted. Two failures are forgiven once any page
  of the region was read: a refusal, on any page (`LateRefusalPasses`, `LateRefusalDestroysRows`), and any other error on
  the first page of a path or variant (`FailedVariantPasses`, `FailedVariantDestroysRows`). The comment at
  internal/ctyun/client.go:336-337 calls paths and variants compatibility alternatives; the three image visibilities at
  internal/ctyun/sync.go:163 are not, each lists images of its own. A success has read everything if and only if none of
  its scans was refused and none failed on its first page (`SuccessIsComplete`), and the same condition decides whether
  the stored rows include all that the provider can hold behind its answers (`RowsHoldCatalogue`).
- The merge remembers items under id and region joined by a colon, in one map for all regions. A region id that is
  repeated, or that ends another after a colon, loses items and confirms deletions that did not happen
  (`UnsafeKeysLoseItems`, `UnsafeRegionsConfirmWrongly`). The listing is right for every provider if and only if the
  region ids cannot be confused in this way: `ListingMeaning` is the other half.
- The last retry delay, 600 seconds, is never used: the ninth attempt closes the job (`RetryDelay`).
- A difference between the two documents themselves is reported at `/`, which by section 3 of RFC 6901 names the member
  with the empty name. Every path resolves to the reported sides if and only if the documents are containers of the
  same kind (`PathsResolve`).
- Past 2^32 - 1 blocks, where RFC 8018 refuses, the PBKDF2 counter wraps and the key repeats itself (`LongKeysRepeat`).
- An empty option list is cached in memory only, so an older list in the table comes back later
  (`EmptyValueRevivesOld`). The cache stays in step if and only if that call does not happen (`StepRefines`).
- A payment refresh that ends as unchanged has still moved the deadline of the old code (`UnchangedExtends`).
- A confirmed address that contains a separator is never found among the stored addresses, although it is stored
  (`ProtectionHolds`).

## Model

| member | source | states |
|---|---|---|
| `RegionListing.StampKeepsId` | internal/ctyun/client.go:319-325 | recording path and region on an item never changes which resource it is |
| `RegionListing.CollectItems` | internal/ctyun/client.go:315-326 | the item loop keeps the items with an id, stamped, in order |
| `RegionListing.RunPages` | internal/ctyun/client.go:278-332 | the page loop, with its cap, refusals, errors and cancellation, is the scan function |
| `RegionListing.RunRegion` | internal/ctyun/client.go:273-342 | one worker's scan of a region over all paths and variants, including what a success forgives |
| `RegionListing.MergeRegions` | internal/ctyun/client.go:353-378 | the merge with its one map of seen keys |
| `Identity.IdByPlace` | internal/ctyun/client.go:391-402 | the id of an item is the text at the least place of the key list whose key has one, the instance id first for servers and the plain id first otherwise, and empty exactly when no key has one |
| `Phrases.RefusalMeaning` | internal/ctyun/client.go:382-389 | a refusal is an answer that says one of five phrases, at any place and in any case |
| `ListingOrigins.PathsTraced` | internal/ctyun/client.go:273-334 | the items scanned for a region are those with an id at the places read, each once, in the order of path, variant, page and index, with path and region noted on them |
| `ListingOrigins.ListingExactly` | internal/ctyun/client.go:273-378 | for region ids that cannot be confused, an entry holds for every id read exactly the first item read with it, in the order of reading, said in terms of the provider's pages |
| `ListingErrors.ErrorMeaning` | internal/ctyun/client.go:302-367 | a failed region reports the problems of its scans in order, a skipped one its refusals or that nothing answered, a success nothing |
| `ListingErrors.ListingOutcome` | internal/ctyun/client.go:245-379 | the listing fails exactly without regions, without paths or when aborted, in this order, and else has one entry per region, in the order asked for |
| `ListingTheorems.PagesReadIsExact` | internal/ctyun/client.go:278-332 | how many pages a scan reads is fixed by: all pages before were available and announced, the next is not |
| `ListingTheorems.ScanPagesMeaning` | internal/ctyun/client.go:278-332 | the page loop adds the usable items of the pages read, and its flags say whether a page was read, the scan was cut short, or a problem was recorded |
| `ListingTheorems.StatusMeaning` | internal/ctyun/client.go:335-367 | a region is success, failed or skipped exactly by whether a page was read, a scan was cut short, a problem occurred |
| `ListingTheorems.FirstSeenPicks` | internal/ctyun/client.go:368-376 | the deduplication picks all first occurrences of non-empty ids, in order |
| `ListingTheorems.FirstSeenIds` | internal/ctyun/client.go:368-376 | its result has no id twice, and exactly the non-empty ids of its input |
| `ListingTheorems.ConfusedKeys` | internal/ctyun/client.go:370-374 | two items can share a key only if one region id is the other or its tail after a colon |
| `ListingTheorems.ListingMeaning` | internal/ctyun/client.go:350-379 | for region ids that cannot be confused, every entry has its region, its status, and each returned id once in first-seen order |
| `ListingTheorems.SuccessIsComplete` | internal/ctyun/client.go:302-341 | every scan behind a success read all announced pages, if and only if none was refused on any page and none failed on its first |
| `ListingTheorems.LateRefusalPasses` | internal/ctyun/client.go:303-309 | a provider whose page 2 is refused yields a success with half its items |
| `ListingTheorems.FailedVariantPasses` | internal/ctyun/client.go:335-340 | a provider that fails on two of the three image visibilities yields a success with the images of the third |
| `ListingTheorems.UnsafeKeysLoseItems` | internal/ctyun/client.go:368-376 | for every other region list some provider's item is read and then dropped |
| `ListingTheorems.MergeAddsNothing` | internal/ctyun/client.go:353-378 | the merge never lists an id in a region whose pages did not hold it |
| `WorkerPool.StepKeepsInv` | internal/ctyun/client.go:265-349 | every step of every worker keeps: regions are claimed once, and finished slots hold the sequential result |
| `WorkerPool.AnyScheduleIsSequential` | internal/ctyun/client.go:265-352 | for any number of workers and any interleaving the outcome is that of the left-to-right scan, or nothing when cancelled |
| `WorkerPool.Progress` | internal/ctyun/client.go:265-349 | no schedule blocks, and each has a bound |
| `ResourceStore.Store.ReplaceResources` | internal/storage/storage.go:406-448 | a replacement commits as a whole or leaves the rows as they were |
| `ResourceStore.Store.RecordRegionSync` | internal/storage/storage.go:458-478 | a failed or skipped region only marks its rows stale |
| `ResourceStore.Store.ResourceByProvider` | internal/storage/storage.go:95-110 | finds exactly the row under the unique key |
| `ResourceStore.UpsertAllContent` | internal/storage/storage.go:426-436 | the upsert loop overwrites the content of exactly the listed keys; a new row starts stale |
| `ResourceStore.ReplaceSetsRegion` | internal/storage/storage.go:406-448 | after a replacement the rows of the region are the listing |
| `ResourceStore.ReplaceWithoutRegions` | internal/storage/storage.go:406-448 | a replacement without regions makes all rows of the account and type the listing, and touches no other row |
| `ResourceStore.ReplaceElsewhere` | app/db.py:47-63 | any other region loses only rows whose id the listing took over through the unique key |
| `ResourceStore.RecordKeepsRows` | internal/storage/storage.go:458-478 | recording a region's outcome changes no row's content |
| `SyncCommit.BuildWrites` | internal/ctyun/sync.go:193-206 | the write loop |
| `SyncCommit.CommitRegion` | internal/ctyun/sync.go:185-213 | the transactions of one region, cut off where the database refuses |
| `SyncCommit.CommitRegions` | internal/ctyun/sync.go:183-218 | the commit loop applies a prefix of the planned transactions, counts the written items, and is clean only if nothing failed |
| `SyncSafety.SyncKind` | internal/ctyun/sync.go:179-218 | a sync from its scan on, with its total; an aborted scan commits nothing |
| `SyncSafety.RowsAreLastListing` | internal/ctyun/sync.go:207-209 | over any trace the rows of a region are its last listing |
| `SyncSafety.SafeOverRuns` | internal/ctyun/sync.go:179-213 | over every run of calls, cut off and interleaved in any way, rows of a region change only to the listing of a call in which it ended in success |
| `SyncRows.PlanRow` | internal/ctyun/sync.go:183-213 | one row through the transactions of a call over distinct regions: the last region that stores its id decides; otherwise it goes if its region succeeded and grows stale if its region did not |
| `SyncRows.StoredRow` | internal/ctyun/sync.go:183-213 | end to end, for every id: name (or id), region, status, billing mode and payload of the row are those of the first item the last successful region returned under it, fresh; an id that none returned keeps its row, unless its region succeeded, and with the region's error if it was scanned |
| `SyncReports.TotalMeaning` | internal/ctyun/sync.go:181-218 | the returned total is the number of distinct ids returned by the successful regions that were committed before the database refused |
| `SyncReports.RecordsExactly` | internal/storage/storage.go:458-478 | an uninterrupted call records every region once, with its status, its number of ids or its error |
| `SyncSafety.ListingIds` | internal/ctyun/sync.go:193-206 | the stored ids are exactly the non-empty listed ids |
| `SyncSafety.LateRefusalDestroysRows` | internal/ctyun/sync.go:207-209 | a late refusal removes a row the provider never reported gone |
| `SyncSafety.FailedVariantDestroysRows` | internal/ctyun/sync.go:207-209 | so does a failed image visibility |
| `Catalogues.SomethingUnread` | internal/ctyun/client.go:302-341 | behind every region whose scans were not all read to the end the provider may hold an id that the listing lacks |
| `Catalogues.NothingUnread` | internal/ctyun/client.go:302-341 | behind scans that were all read to the end it holds no other id |
| `Catalogues.RowsHoldCatalogue` | internal/ctyun/sync.go:183-218 | the stored rows of a successful region include all that the provider can hold behind its answers, if and only if no scan was refused and none failed on its first page |
| `ActionJobs.RetryDelay` | internal/httpserver/background.go:201-236 | a pass puts the job off by 300 seconds; an unconfirmed attempt 1 to 8 retries after exactly 2, 5, 10, 20, 40, 80, 150 and 300 seconds, the ninth closes it, and the last delay of the table is out of reach |
| `ActionJobs.StepKeepsInv` | internal/httpserver/background.go:172-238 | every step, including crashes and lost writes, keeps the guard, queue and attempt invariants |
| `ActionJobs.OneSyncPerAccount` | internal/httpserver/server.go:488-498 | in every run at most one sync per account is in flight and the set of busy accounts is exact |
| `ActionJobs.JobsAreBounded` | internal/httpserver/background.go:181-236 | a job has at most nine passes plus the lost ones, and while live is due within 300 seconds of its last write |
| `ActionJobs.BusyAccountIsFree` | internal/httpserver/background.go:192-200 | in every run a job's passes are exactly the times the loop reached it while its account was free, and its attempts are at most these |
| `ActionJobs.UntriedJobs` | internal/httpserver/ctyun_handlers.go:85-95 | in every run a job that no pass was made for is pending, without attempts, and due two seconds after it was created |
| `ActionJobs.GuardServes` | internal/httpserver/background.go:88-101 | entering succeeds exactly when no thread holds the account, and after leaving none does |
| `ActionJobs.OutcomeCounts` | internal/httpserver/background.go:220-236 | an outcome that is written moves the job one of its nine on, and closes it when it should |
| `ActionJobs.AccountGuard.TryBegin` | internal/httpserver/background.go:88-94 | entering succeeds exactly when the account is free |
| `ActionJobs.AccountGuard.End` | internal/httpserver/background.go:99-101 | leaving removes this account only |
| `ActionJobs.JobTable.UpdateActionJob` | internal/storage/storage.go:572-576 | writes one row, or none when the job is gone |
| `ActionJobs.ActionJobsOnce` | internal/httpserver/background.go:186-237 | a pass leaves the guard as it found it and writes leases and outcomes of the jobs whose accounts were free |
| `ActionJobs.PassIsRun` | internal/httpserver/background.go:186-237 | the method's pass is a run of the machine that ends with the same rows and the same busy accounts |
| `Confirmation.TargetIsSynced` | internal/httpserver/background.go:134-170 | the type a job is judged by is among the types its pass syncs |
| `Confirmation.SupportedTypes` | internal/ctyun/sync.go:19 | all types a job asks for can be synced if and only if its own type is one of the nine known ones |
| `Confirmation.ProjectionDecides` | internal/httpserver/background.go:199-221 | syncs of other accounts and types do not reach the rows a job is judged by |
| `Confirmation.PlanKey` | internal/ctyun/sync.go:183-218 | after a commit over distinct regions a row exists exactly if its id was listed or it lies outside the scan |
| `Confirmation.ResultsMeaning` | internal/ctyun/client.go:350-379 | all entries succeed exactly if every region answered in full view, and they list exactly the reported ids |
| `Verdicts.CleanRow` | internal/ctyun/sync.go:183-213 | after a sync in which every region succeeded the row under an id is exactly that of the item last reported, or an older one outside the scanned regions |
| `Verdicts.AchievedExactly` | internal/httpserver/background.go:240-291 | for every action: a start, reboot, stop, bind or unbind is confirmed if and only if the item last reported under the id has a status or binding that says so, a deletion if and only if none was reported, any other if the row is current, and a job without an id if and only if a current row has its name and region |
| `Verdicts.PassIsConfirmed` | internal/httpserver/background.go:199-291 | given that nobody else touched the rows of its account and type, a pass confirms its job if and only if the type is synced, the scan was whole and committed, every region succeeded and the answers show what the action asks for |
| `Confirmation.UnsafeRegionsConfirmWrongly` | internal/httpserver/background.go:240-247 | for any confusable region list some reported resource is confirmed as deleted |
| `ActionRuns.OwnDecides` | internal/ctyun/sync.go:183-218 | whatever else is committed, an account that is not deleted has the rows of a type that its own transactions on that type make |
| `ActionRuns.OwnSinceDeletion` | internal/storage/storage.go:310-336 | once an account is deleted, its rows are those that its own transactions since then make of an empty table |
| `ActionRuns.StepKeepsInv` | internal/httpserver/background.go:77-238 | every step of guard, jobs, syncs, commits and account deletion keeps: one session per held account, whose calls have committed exactly their own transactions, and every completed job has a pass that justifies it |
| `ActionRuns.GuardIsExclusive` | internal/httpserver/server.go:488-498 | in every run, since a thread entered the guard the transactions on its account and each type are exactly those its own call has committed |
| `ActionRuns.VerdictIsJobConfirmed` | internal/httpserver/background.go:206-213 | for every action, what the loop reads from the table is the one-pass confirmation on the table its pass began with |
| `ActionRuns.VerdictExactly` | internal/httpserver/background.go:206-291 | the pass confirms a job of any action exactly if its target type is synced, every region answered in full view and the answers show what the action asks for |
| `ActionRuns.FinishVerdict` | internal/httpserver/background.go:199-291 | so it is in every run at the end of every pass whose job was not deleted meanwhile, nothing being assumed of the other threads |
| `ActionRuns.CompletedMeansMet` | internal/httpserver/background.go:218-223 | in every run a completed job has a pass of its own in which all regions answered and the answers showed what its action asks for; for a deletion, that none listed the id |
| `ActionProgress.UndisturbedPass` | internal/httpserver/background.go:186-237 | from every reachable state the loop can take a new job whose account is free through one whole pass, whatever provider and database do; the job is then completed if and only if the answers show what its action asks for |
| `ActionPass.SyncTypes` | internal/ctyun/sync.go:39-98 | the sync of several types: each supported one once, its transactions, and which types end with an error |
| `ActionPass.RunJob` | internal/httpserver/background.go:192-237 | one job of a pass: skipped if the account is busy, else leased, synced, judged on the table and written, with the guard as before |
| `ActionPass.VerdictIsConfirmation` | internal/httpserver/background.go:206-213 | the verdict it writes is the one that the confirmation theorems speak of |
| `PngDecoder.ReconstructRow` | app/services/browser_automation.py:3751-3770 | the in-place loop over one scanline |
| `PngDecoder.ReconstructRows` | app/services/browser_automation.py:3743-3772 | the row loop with its early exits |
| `PngDecoder.WalkChunks` | app/services/browser_automation.py:3717-3736 | the chunk walk terminates and yields the header and the image data |
| `PngDecoder.ConvertRows` | app/services/browser_automation.py:3773-3787 | the conversion to RGB |
| `PngDecoder.DecodePng` | app/services/browser_automation.py:3713-3787 | the decoder with its error results |
| `PngTheorems.PredictorsAgree` | app/services/browser_automation.py:3757-3768 | the decoder's predictors are those of section 6 of RFC 2083, including the Paeth tie order |
| `PngTheorems.UnfilterInvertsFilter` | app/services/browser_automation.py:3753-3770 | reconstruction inverts filtering for every row, filter and pixel size |
| `PngTheorems.FilterInvertsUnfilter` | app/services/browser_automation.py:3753-3770 | filtering inverts reconstruction |
| `PngTheorems.RowsRoundTrip` | app/services/browser_automation.py:3743-3772 | the row loop returns the rows of every image under any choice of filter per row |
| `PngTheorems.DecodedIsEncoding` | app/services/browser_automation.py:3743-3772 | data that decodes to full rows is the encoding of those rows |
| `PngTheorems.WalkCollects` | app/services/browser_automation.py:3717-3736 | the walk collects the IDAT contents before IEND, section 3.2 of RFC 2083 |
| `PngTheorems.DecodesEveryPng` | app/services/browser_automation.py:3713-3787 | every non-interlaced 8-bit PNG of the four colour types, encoded from its pixels with one, two, three or four samples each, is read as its size and the colour of every pixel |
| `JsonDiff.SortedKeys` | internal/apicompare/compare.go:325-329 | the sorted keys are the key set, in order, once each |
| `JsonDiff.AtMostMeaning` | internal/apicompare/compare.go:329 | the order is that of sort.Strings: a beginning first, else the first differing character decides |
| `JsonDiff.Report.CompareValues` | internal/apicompare/compare.go:312-361 | the recursion appends exactly the comparison's differences to the shared slice |
| `JsonPointer.UnescapeEscape` | internal/apicompare/compare.go:374-376 | undoing the escapes in the order of section 4 of RFC 6901 returns the key |
| `JsonPointer.IndexTokens` | internal/apicompare/compare.go:353 | printed indices and the array index tokens of RFC 6901 correspond one to one |
| `JsonPointer.ParseRender` | internal/apicompare/compare.go:333-353 | a printed path parses back to the keys and indices it went through |
| `JsonDiffTheorems.NoDifference` | internal/apicompare/compare.go:312-361 | nothing is reported if and only if the values are structurally equal with numbers as rationals |
| `JsonDiffTheorems.ReportIsExact` | internal/apicompare/compare.go:312-361 | a difference is reported if and only if the documents clash at the place it names, as judged by resolving that place |
| `JsonDiffTheorems.PathsAreDistinct` | internal/apicompare/compare.go:312-361 | no place is reported twice |
| `JsonDiffTheorems.PathsResolve` | internal/apicompare/compare.go:378-383 | every path resolves to the reported sides, if and only if the documents are containers of the same kind |
| `Octets.XorDigits` | internal/security/security.go:175-177 | each of the eight digits of an exclusive or is 1 exactly where the digits differ |
| `Octets.BigEndian4` | internal/security/security.go:166-168 | the four octets of a 32-bit number, most significant first |
| `Octets.BigEndian8` | internal/security/security.go:102-103 | the eight octets of a 64-bit number weigh 2^56 down to 1 |
| `Fernet.UnpadExactly` | internal/security/security.go:137-147 | a block sequence unpads to a value if and only if it is that value padded by section 6.3 of RFC 5652 |
| `Fernet.DecryptUndoesEncrypt` | internal/security/security.go:99-100 | chained decryption inverts chained encryption over any number of blocks |
| `Fernet.EncryptUndoesDecrypt` | internal/security/security.go:135-136 | and the other way round |
| `Fernet.OpensWhatItSealed` | internal/security/security.go:115-148 | a key opens bytes to a value if and only if they are a sealing of that value under that key |
| `Fernet.DecryptFernet` | internal/security/security.go:115-148 | the decryption with its slices and its padding loop |
| `Fernet.Keyring.DecryptString` | internal/security/security.go:70-81 | the first key that opens the token decides |
| `Fernet.Keyring.EncryptString` | internal/security/security.go:83-113 | the built buffer is the sealing under the first key |
| `Fernet.TokenLayout` | internal/security/security.go:83-113 | every byte of a token: 0x80, the time in eight octets, the IV, each padded block mixed with the 16 bytes before it and encrypted under the second key half, and the HMAC of all this under the first half |
| `Fernet.RoundTrip` | internal/security/security.go:70-113 | what was encrypted is read back by every later keyring that holds the key and no earlier key whose signature check passes |
| `Fernet.AcceptedIsSealed` | internal/security/security.go:70-81 | whatever is read back was sealed under the first key that opens the token |
| `Pbkdf2.Pbkdf2Sha256` | internal/security/security.go:160-183 | the outer loop yields the first bytes of the appended blocks, with the wrapping counter |
| `Pbkdf2.DeriveBlock` | internal/security/security.go:164-179 | the in-place inner loops compute the exclusive or of all U_j |
| `Pbkdf2.LoopsMeetStandard` | internal/security/security.go:160-183 | up to 2^32 - 1 blocks the result is the derived key of section 5.2 of RFC 8018 |
| `Pbkdf2.KeyDigits` | internal/security/security.go:160-183 | for every password, salt, iteration count and length: a digit of the derived key is 1 if and only if an odd number of the iterates of its block have a 1 there, the first iterate being of the salt and the block number in four octets |
| `Pbkdf2.LongKeysRepeat` | internal/security/security.go:162-180 | beyond that the key repeats itself |
| `Pbkdf2.VerifyPassword` | internal/security/security.go:150-158 | accepts exactly the stored derived key |
| `Pbkdf2.StoredHashChecks` | app/security.py:96-99 | a hash stored by the Python side is accepted exactly for passwords with the stored derived key |
| `WorkflowPatch.PatchBlock` | app/services/rustdesk_customizer.py:522-528 | assignment, reverse deletion and insertion in the list give the conditioned block |
| `WorkflowPatch.PatchJobIf` | app/services/rustdesk_customizer.py:510-530 | the search for the job and its block, and the patched text |
| `WorkflowPlaces.PatchedAt` | app/services/rustdesk_customizer.py:510-529 | line by line: the condition stands at the place of the block's first condition, or right after the job's line, and the block's other lines follow in order, where a block ends at the first line with two leading spaces, not four, whose last visible character is a colon |
| `WorkflowPlaces.SplitCuts` | app/services/rustdesk_customizer.py:511 | the lines are the text cut at the ten line breaks of Python and at CR LF, which is never taken apart |
| `WorkflowPlaces.PatchedText` | app/services/rustdesk_customizer.py:529-530 | the patched lines each end in a line feed; a text without the job's line is returned as it is |
| `WorkflowTheorems.SplitJoin` | app/services/rustdesk_customizer.py:511-529 | the joined lines split into the same lines |
| `WorkflowTheorems.PatchFrame` | app/services/rustdesk_customizer.py:512-529 | only the conditions of the job's first block change; it ends with exactly one, the desired one |
| `WorkflowTheorems.Commute` | app/services/rustdesk_customizer.py:510-530 | patches of two jobs commute and leave each other's first block alone |
| `WorkflowTheorems.PatchJobs` | app/services/rustdesk_customizer.py:724-725 | the loop over the conditions |
| `WorkflowTheorems.Idempotent` | app/services/rustdesk_customizer.py:710-725 | applying all conditions a second time changes nothing |
| `WorkflowTheorems.OrderIsIrrelevant` | app/services/rustdesk_customizer.py:710-725 | the order of the conditions does not matter |
| `WorkflowTheorems.OtherLinesStay` | app/services/rustdesk_customizer.py:710-725 | all lines but the conditions in the listed jobs' first blocks are kept in order, also those elsewhere that look like conditions, and jobs that are not listed keep their first block |
| `WorkflowTheorems.EveryJobIsConditioned` | app/services/rustdesk_customizer.py:710-725 | every listed job in the file ends with exactly one condition in its first block, its own |
| `ShellQuote.QuotingRoundTrip` | internal/httpserver/linux_handlers.go:661 | reading the joined quoted words returns them, if and only if no word has a NUL |
| `ShellQuote.ItoaMeaning` | internal/httpserver/linux_handlers.go:488-491 | a number is written in decimal without leading zeros, with a minus sign if negative |
| `ShellQuote.CommasSplit` | internal/httpserver/linux_handlers.go:490 | splitting the joined candidates at the commas gives them back, in order |
| `ShellQuote.InstallEnv` | internal/httpserver/linux_handlers.go:486-500 | the texts of the environment, joined |
| `ShellQuote.InstallCommand` | internal/httpserver/linux_handlers.go:440-449 | the command as it is concatenated |
| `ShellQuote.StartArrives` | internal/httpserver/linux_handlers.go:440-449 | in both branches of the command, whatever stands around them, every setting is read verbatim as one variable of the installer, and there are no other words |
| `ShellQuote.Cleanup` | internal/httpserver/linux_handlers.go:443-447 | the removal command built by updating a string |
| `ShellQuote.TrapRemovesFiles` | internal/httpserver/linux_handlers.go:443-448 | the trap argument, quoted twice and read twice, removes exactly the temporary files, whatever follows in the command |
| `RechargeAmount.ParseIsPattern` | internal/httpserver/recharge.go:18 | the scan accepts exactly the texts of the amount pattern and finds their two groups |
| `RechargeAmount.AcceptedExactly` | internal/httpserver/recharge.go:25-48 | a text is accepted if and only if, without the white space around it, it has the pattern and is worth from one cent to less than 10^10 cents, digit by digit |
| `RechargeAmount.NormalForm` | internal/httpserver/recharge.go:25-48 | the result is canonical, keeps the exact value, and is its own normal form |
| `RechargeAmount.EqualFormsEqualValues` | internal/httpserver/recharge.go:25-48 | two accepted texts have one normal form if and only if they are worth the same |
| `PrivateIp.FirstKeyFound` | app/main.py:1403-1432 | an address under the first key is found if and only if it contains no separator |
| `PrivateIp.IpsAreClean` | app/main.py:1403-1432 | no found address contains a separator or a slash |
| `PrivateIpPlaces.FoundExactly` | app/main.py:1403-1432 | an address is found if and only if it stands, between separators and up to a slash, in a text under one of nine keys of the payload or eight of a network card, at any depth |
| `PrivateIpPlaces.ProtectedFields` | app/main.py:3159-3194 | which fields a stale item is stored with, and that all others are as listed |
| `PrivateIpPlaces.ProtectedCards` | app/main.py:3184-3193 | the first network card that is a dictionary gets the address, the other cards stay |
| `PrivateIp.ProtectionHolds` | app/main.py:3159-3194 | before the deadline the stored item keeps confirmation and deadline, and shows the address if and only if it is a single one |
| `PrivateIp.ProtectedExactly` | app/main.py:3159-3194 | after a sync a confirmed instance still has its address and deadline if and only if it was last written before the deadline |
| `PrivateIp.EcsRows.ConfirmPrivateIp` | app/main.py:651-688 | the confirmation written into the stored payload, with its card loop |
| `PrivateIpPlaces.ConfirmedFields` | app/main.py:663-666 | a confirmation writes four fields, the deadline 900 seconds ahead, and leaves all others |
| `PrivateIpPlaces.ConfirmedCards` | app/main.py:667-679 | the first network card that can be the changed one gets address and subnet, the other cards stay |
| `PrivateIp.EcsRows.SyncEcs` | app/main.py:3222-3263 | the write part of a sync: delete the regions, then upsert the protected items |
| `PrivateIpPlaces.RowsAfter` | app/main.py:3222-3263 | for every id: the last item listed under it is stored, protected by what was there before the sync; a row not listed stays exactly if the sync names regions and not its own |
| `PrivateIp.ConfirmedAddressStays` | app/main.py:651-688 | over every run of syncs listing the instance within 900 seconds the address and its deadline stay |
| `PrivateIp.SyncDrops` | app/main.py:3159-3168 | the first sync at or after the deadline stores the listing untouched |
| `OptionCache.Cache.Lookup` | app/main.py:403-433 | the two-level look-up with its reload |
| `OptionCache.Cache.Set` | app/main.py:440-463 | the store with its capacity reset |
| `OptionCache.Cache.Clear` | app/main.py:466-483 | the clearing loop |
| `OptionCache.StepRefines` | app/main.py:403-483 | a call keeps both levels in step with what was set last, if and only if it does not store an empty list over a row |
| `OptionCache.FindsLatest` | app/main.py:403-433 | after any such run a look-up returns nothing or the last value, under one second past its expiry, and never one from before its kind was cleared |
| `OptionCache.FindsFresh` | app/main.py:403-433 | after any such run without a clearing for one account, a stored value of a persistent kind is found until it expires, however often the dictionary was reset |
| `OptionCache.OthersInMemory` | app/main.py:403-463 | a stored value leaves the other keys of the dictionary alone unless it holds more than 2000, and a value read back is kept until its expiry, at least a second |
| `OptionCache.ClearedExactly` | app/main.py:466-483 | exactly which keys survive a clearing |
| `OptionCache.EmptyValueRevivesOld` | app/main.py:448 | an empty list lets the older one come back |
| `PaymentQr.Entry.Order` | app/services/browser_automation.py:2598-2615 | a new order replaces the payment, a failed one keeps it, as in the machine's step |
| `PaymentQr.Entry.CloseSession` | app/services/browser_automation.py:4128-4130 | closing drops the payment, as in the machine's step |
| `PaymentQr.Entry.Activate` | app/services/browser_automation.py:2663-2701 | an answer with a code replaces code, trade number and deadline and drops the picture; any other answer changes nothing |
| `PaymentQr.Entry.RefreshPaymentQr` | app/services/browser_automation.py:3958-4005 | the loop over two attempts is the machine's refresh |
| `PaymentQr.Entry.GetPaymentQr` | app/services/browser_automation.py:3222-3234 | serving or rendering the picture is the machine's fetch |
| `PaymentQr.StepKeeps` | app/services/browser_automation.py:2640-2701 | every step keeps: the cached picture shows the current code and the deadline is at most 60 seconds away |
| `PaymentQr.RunKeeps` | app/services/browser_automation.py:123-127 | in every interleaving the remaining seconds lie in 0 to 60 and a served picture shows the current code |
| `PaymentQr.RemainingExactly` | app/services/browser_automation.py:123-127 | the answered seconds are the time left, rounded up but for a thousandth, never below zero |
| `PaymentQr.LatestCode` | app/services/browser_automation.py:2663-2701 | in every run the cached code, trade number and channel are those of the last accepted answer, valid for 60 seconds from it or less after a refresh |
| `PaymentQr.CodeStays` | app/services/browser_automation.py:2598-2701 | they stay until another answer is accepted, an order succeeds or the session is closed |
| `PaymentQr.RefreshDeadline` | app/services/browser_automation.py:3958-3994 | a refresh that succeeds on either attempt leaves a changed code valid until 60 seconds after it began |
| `PaymentQr.UnchangedExtends` | app/services/browser_automation.py:3995-4005 | a refresh that finds the code unchanged has moved its deadline |

## Left out

- SafeOverRuns: assumes ids are not shared between regions, because the unique key moves such a row to the region that listed it last (`ReplaceElsewhere` says how).
- ListingMeaning: assumes region ids that cannot be confused; `UnsafeKeysLoseItems` shows that the assumption is exact.
- FindsLatest: assumes one clock, calls that do not overlap and a database that works; a failed write or deletion is suppressed by the source and can leave an older row behind.
- ConfirmedAddressStays: numbers are exact here, so a deadline is not rounded, and a listing that omits the instance deletes its row together with the confirmation.
- PaymentQr.RunKeeps: covers one account, whose operations are serialised by its lock; payments of a browser session are not modelled.
- Scan: reads commands without expansions, redirections, comments and operators other than the semicolon, and rejects the rest; so the preparation of the users file and the test for root in the install command are not read, and `TrapRemovesFiles` and `StartArrives` hold for any text in their place.
- PassIsConfirmed: assumes that nobody else touches the account's rows during the pass; `GuardIsExclusive` proves it of every run, and `FinishVerdict` and `CompletedMeansMet` no longer assume it.
- StoredRow: assumes region ids that cannot be confused, as `ListingMeaning` does; an id that several regions report is stored by the last of them.
- CompletedMeansMet: speaks of region ids that cannot be confused, or of a job that names its region; `UnsafeRegionsConfirmWrongly` shows that the rest is confirmed wrongly.
- ActionJobsOnce: takes the verdict of each job as given; `RunJob` computes it from the table for one job, and the machine of `ActionRuns` in any interleaving.
- HTTP handlers, request building, sessions and SSH, because they are plumbing around the modelled calls.
- The field table of `Normalize`: which response fields become name, status and billing mode is a parameter; where the chosen values go is proved (`StoredRow`). JSON encoding errors do not occur.
- ListingOutcome: the cause that an aborted listing appends to its error text is not part of this model.
- The fan-out over types and the summary of a sync: `SyncTypes` runs the types one after the other, while `SafeOverRuns` and `ActionRuns` allow their transactions to interleave.
- `_ensure_job_permissions` and `_ensure_workflow_permissions`: the same block search followed by one insertion.
- Key loading, session signing and one-time passwords: short computations without interplay.
- PNG bit depths, palettes and interlacing that the decoder refuses or does not look at; checksums, which it skips.
- The `~` syntax error of RFC 6901: a printed path never contains one.
