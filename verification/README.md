# eggwork, verified core

Dafny 4.11 models of the parts of eggwork that keep state or transform
structured data, with proofs of what they promise. `dafny verify dfyconfig.toml`
checks everything; there are no assumptions and no unproved members.

| module | models |
|---|---|
| `BlobTables`, `BlobMachine`, `BlobSafety` | the content-addressed blob store as a machine over two durable layers, tables and files; between any two steps the process may die or the power may fail, and then unsynchronised file operations are lost or kept one by one |
| `BlobCollection` | one garbage collection pass, and repeated ones |
| `BlobStartup`, `BlobStore` | start-up repair, and the store's methods; each returns, as a ghost, the machine steps it made, so the theorems about every run cover every method cut short at any point |
| `Artifacts`, `ArtifactStore` | artifact records beside the blobs they name; capturing declared outputs |
| `Record` | publishers on one execution record, its durable journal, restarts, and an event stream |
| `Lease`, `LeaseTicks` | the lease monitor against renewals and two clocks, and the clock histories that do harm |
| `Admission` | permits, eviction and generation fencing |
| `Manifest`, `Patch` | the manifest validator, patches and the canonical order |
| `Canonical`, `Ordering` | the canonical form of a request, on a stable sort |
| `Capture`, `Reader` | bounded output capture and the pipe reader |
| `Handshake` | the runner and the sandbox helper as two processes |
| `Framing` | newline framing over transport chunks |
| `Words`, `Counting`, `Wrappers` | machine-word arithmetic, counting, options and results |

How to read the machines. A state machine is a step function in which a step that
is not enabled changes nothing, so every sequence of steps is a run and a theorem
over all sequences is a theorem over all interleavings. What the program cannot
control is a parameter of a step or of a method: the answers of the host, which
operation fails, the time, fresh identifiers, the digest function (any function
from contents to digests). Strings are sequences of UTF-8 bytes, one `char` for
each byte.

Results that contradict what one might expect, with the exact condition:

- An expiry from 2^63 up is stored as a negative number and counts as expired
  (`BlobStore.DeadlineIsKept`).
- The first blob of a shard can be lost to a power failure although it is
  referenced, because the entry of its directory is never synchronised
  (`BlobSafety.FirstBlobCanBeLost`, `BlobSafety.LosableExactlyWhen`).
- A wall clock that gains on the monotonic one brings a renewed deadline forward, and
  can leave the lease monitor waiting past it (`Lease.BroughtForwardExactlyWhen`,
  `LeaseTicks.BroughtForwardByTicksExactlyWhen`, `Lease.OversleepsExactlyWhen`).
- A launch reported as cancelled before the spawn can have started its target
  (`Handshake.CancelledAfterSpawn`, `Handshake.FailedWithTargetExactlyWhen`).
- An event stream can be closed without its terminal event
  (`Record.ClosedWithoutTerminalEvent`, `Record.ClosedAtOpening`).
- A launch that may fall back can start two targets after a timeout
  (`Handshake.TwoTargetsExactlyWhen`, `Handshake.AtMostOneTarget`).
- The pending cap of the event framing counts buffered bytes rather than line
  lengths, so it can see how the body was cut (`Framing.CapSeesChunking`,
  `Framing.FramedExactlyWithinCap`).
- The bulk capture agrees with the per-byte loop only while the tail fits its limit,
  which it always does from an empty capture (`Capture.BulkMatchesOracle`).
- The field of the reader named `stream_chunks_dropped` counts bytes; the model
  follows the code.

## Model

| member | source | states |
|---|---|---|
| `BlobTables.RetainedRefs` | crates/eggwork-server/src/blob.rs:259-287 | a transaction of upserts gives exactly the named references the new expiry; every other reference is as before |
| `BlobTables.RetainedKeeps` | crates/eggwork-server/src/blob.rs:105-108 | upserts keep every reference attached to a row and every stored count equal to the number of references, re-expiring an existing reference included |
| `BlobTables.DropRefsKeeps` | crates/eggwork-server/src/blob.rs:109-112 | deleting any set of references keeps the counts exact, because the count is never below what is taken off: the clamp at zero never acts |
| `BlobTables.DropRowKeeps` | crates/eggwork-server/src/blob.rs:101-101 | deleting a row takes its references with it and disturbs no other count |
| `BlobTables.TotalAdds` | crates/eggwork-server/src/blob.rs:546-552 | a new row adds exactly its size to the sum the quota is checked against |
| `BlobSafety.InvAlways` | crates/eggwork-server/src/blob.rs:74-699 | every state reachable from an empty directory, by any interleaving of upload, statement, collection and start-up steps, crashes of the process and power failures that lose or keep each unsynchronised file operation, satisfies the store invariant |
| `BlobSafety.ReferencedBlobIsKept` | crates/eggwork-server/src/blob.rs:395-582 | at every moment of every run, inside operations and after crashes and power failures, a blob with an unexpired reference has its row, and it has its file if and only if no power failure took the directory of the file since the reference was made; the file hashes to the digest and has the recorded size |
| `BlobSafety.PowerLossTakesDirectoriesOnly` | crates/eggwork-server/src/blob.rs:543-552 | for every reference whose file is there, expired or not: a power failure leaves the file in place if and only if it leaves the directory, because the row is inserted only after the entry was synchronised |
| `BlobSafety.LosableExactlyWhen` | crates/eggwork-server/src/blob.rs:514-552 | for every reference whose file is there: a power failure can take the file if and only if the entry of its shard directory has not reached the disk |
| `BlobSafety.FirstBlobCanBeLost` | crates/eggwork-server/src/blob.rs:514-552 | for every configuration, a run that loses a referenced blob: nothing synchronises the root after the shard directory was made |
| `BlobSafety.NothingIsLost` | crates/eggwork-server/src/blob.rs:514-552 | in runs whose power failures take no directory no reference ever loses its file that way |
| `BlobSafety.OpenStoreIsGenuine` | crates/eggwork-server/src/blob.rs:584-639 | while the store is open every row has its file with matching digest and size, so verification never finds a stored blob corrupt |
| `BlobSafety.AgreementAfterOpen` | crates/eggwork-server/src/blob.rs:646-699 | whatever state a crash left, start-up ends with the set of rows equal to the set of files |
| `BlobSafety.CountsAndQuotaAreExact` | crates/eggwork-server/src/blob.rs:89-112 | in every reachable state each reference count is the number of references to that digest and the sum of sizes is within the quota |
| `BlobSafety.CollectingIsSafe` | crates/eggwork-server/src/blob.rs:411-462 | in the middle of a pass, with files already unlinked and the transaction still open, rolling back leaves every unexpired reference with its file |
| `BlobSafety.UnexpiredStays` | crates/eggwork-server/src/blob.rs:395-476 | no step, collection and start-up repair included, removes or changes an unexpired reference unless it is a statement that names it or its file was taken with its directory |
| `BlobSafety.UnexpiredStaysThroughout` | crates/eggwork-server/src/blob.rs:289-334 | the same over whole runs, up to the expiry of the reference |
| `BlobCollection.PassIsBounded` | crates/eggwork-server/src/blob.rs:411-420 | a pass removes at most `limit` references and at most `limit` blobs, and the tables shrink by exactly what it reports |
| `BlobCollection.PassKeepsAgreement` | crates/eggwork-server/src/blob.rs:421-463 | a pass, successful or not, leaves the files without a row as they were; if rows and files agreed before they agree after |
| `BlobCollection.DryRunNeverOvercounts` | crates/eggwork-server/src/blob.rs:366-392 | the preview, selected before expired references are dropped, never announces more candidates than the real pass finds from the same state |
| `BlobCollection.PassProgresses` | crates/eggwork-server/src/blob.rs:394-476 | a pass with a limit of at least one and no unlink error removes something unless nothing is left to collect |
| `BlobCollection.RepeatedPassesDrain` | crates/eggwork-server/src/blob.rs:394-476 | after more passes than there are references and rows, no expired reference and no unreferenced blob is left |
| `BlobStartup.Reconcile` | crates/eggwork-server/src/blob.rs:646-699 | the three repair loops succeed if and only if nothing that has to go is stuck, and then leave exactly the disk restricted to digests that have both a row and a file, without part files; a repair that fails half-way leaves a disk that reconciles to the same; both are runs of the machine |
| `BlobStartup.ReconciledTwice` | crates/eggwork-server/src/blob.rs:646-699 | start-up on what start-up left changes nothing |
| `BlobStartup.ReconciledAgrees` | crates/eggwork-server/src/blob.rs:660-697 | start-up makes rows and files agree and keeps an unexpired reference, with its expiry and its content, if and only if its file was not taken with its directory |
| `BlobStartup.CrashLosesNothingLive` | crates/eggwork-server/src/blob.rs:395-699 | cut any run at any step: the next start-up leaves the layers in agreement and has an unexpired reference, with its content byte for byte, if and only if its file was not taken with its directory since the reference was made |
| `BlobStore.DeadlineIsKept` | crates/eggwork-server/src/blob.rs:275-284 | a reference lives until its deadline if and only if the deadline fits a signed 64-bit integer; a larger one is expired from the start |
| `BlobStore.SumSizes` | crates/eggwork-server/src/blob.rs:494-503 | the sum of the sizes of all rows |
| `BlobStore.UnreferencedCandidates` | crates/eggwork-server/src/blob.rs:375-392 | exactly the first `limit` unreferenced blobs in order of last use, or all of them |
| `BlobStore.ExpiredReferences` | crates/eggwork-server/src/blob.rs:413-419 | expired references only, as many as there are up to `limit` |
| `BlobStore.CandidateBytes` | crates/eggwork-server/src/blob.rs:468-472 | the saturating total of the candidates is the exact sum of their sizes |
| `BlobStore.CheckQuota` | crates/eggwork-server/src/blob.rs:494-512 | an upload is refused exactly when the sum cannot be read or does not leave room for it |
| `BlobStore.RetainIn` | crates/eggwork-server/src/blob.rs:248-253 | the upserts succeed if and only if every digest has a row, and then every entry is retained |
| `BlobStore.Store.constructor` | crates/eggwork-server/src/blob.rs:114-124 | a store object on a reconciled disk satisfies the invariant |
| `BlobStore.OpenStore` | crates/eggwork-server/src/blob.rs:74-124 | the store opens if and only if directory and database are available and the repair succeeds, on the reconciled disk; otherwise the disk is fit for another attempt that comes to the same |
| `BlobStore.Store.Receive` | crates/eggwork-server/src/blob.rs:526-536 | the body loop ends as the first chunk that is missing or too long, or the first failing write, decides; when it ends well the part holds the concatenation |
| `BlobStore.Store.Publish` | crates/eggwork-server/src/blob.rs:537-580 | the first of length, digest and failing operations decides the answer; on success file and row appear, otherwise the tables are unchanged and, unless a removal fails, so are the files |
| `BlobStore.Store.PutStream` | crates/eggwork-server/src/blob.rs:478-582 | without faults every upload gets one answer, fixed for an oversized declaration, a blob already there or not indexed, an unreadable sum, a full quota, a broken or oversized body, a wrong length, a wrong digest and success; with faults it gets that answer or, once let in, a failure; its effect on both layers and its trace are fixed in each case |
| `BlobStore.Store.VerifyExisting` | crates/eggwork-server/src/blob.rs:584-639 | not found exactly when there is no row, a failure when the file cannot be read, otherwise the content is never corrupt and only the last use changes |
| `BlobStore.Store.RetainPerOwner` | crates/eggwork-server/src/blob.rs:240-256 | all entries are retained or, when a blob is missing, nothing changes |
| `BlobStore.Store.SetReferenceExpiry` | crates/eggwork-server/src/blob.rs:289-322 | exactly the references of that owner get the new expiry, or none for an unlimited one |
| `BlobStore.Store.ReleaseReferences` | crates/eggwork-server/src/blob.rs:324-334 | exactly the references of that owner go |
| `BlobStore.Store.UnlinkAll` | crates/eggwork-server/src/blob.rs:421-458 | the candidates are removed from the file tree and from the transaction in order up to the first that cannot be unlinked, and the bytes reported are what the sum of sizes loses |
| `BlobStore.Store.GarbageCollect` | crates/eggwork-server/src/blob.rs:395-476 | a dry run changes nothing; a real pass removes expired references and the coldest unreferenced blobs only, as much as the limit allows unless an unlink fails, commits what it did in either case, and reports the exact counts and bytes, of candidates and of what was removed |
| `BlobStore.PassOf` | crates/eggwork-server/src/blob.rs:413-462 | what is committed after any number of unlinks is a pass: coldest first, unreferenced only |
| `Artifacts.ConsistentAlways` | crates/eggwork-server/src/artifact.rs:186-322 | in every history of captures, collections of both stores, crashes and power failures, every unexpired record and every pending capture has its references in place, but for those whose file was taken with its directory |
| `Artifacts.ListedArtifactHasBlob` | crates/eggwork-server/src/artifact.rs:126-221 | every artifact that can still be listed has its reference and its file, with its content, whatever was collected in whichever order and whatever crashed in between, if and only if no power failure took the directory of the file since the capture |
| `Artifacts.AllOrNone` | crates/eggwork-server/src/artifact.rs:99-124 | a listing shows all artifacts of a capture, from its commit to its expiry, and none otherwise |
| `ArtifactStore.Records.InsertMany` | crates/eggwork-server/src/artifact.rs:99-124 | all records are inserted if and only if every id is new and no statement fails; otherwise none |
| `ArtifactStore.CaptureBlob` | crates/eggwork-server/src/artifact.rs:326-378 | an output within the limits is stored under the digest of its first read or the capture fails |
| `ArtifactStore.CaptureBlobs` | crates/eggwork-server/src/artifact.rs:269-296 | a successful capture is within the total size limit, and no reference changes while it uploads |
| `ArtifactStore.RetainCapture` | crates/eggwork-server/src/artifact.rs:311-321 | either every blob of the capture is present and retained until the expiry of its record, or nothing changes |
| `ArtifactStore.CaptureDeclared` | crates/eggwork-server/src/artifact.rs:225-324 | a capture either inserts all of its records, with every blob present and retained, or leaves the records unchanged; in both cases what happened to the two stores is a history of the events modelled in `Artifacts` |
| `ArtifactStore.CaptureIsTwoEvents` | crates/eggwork-server/src/artifact.rs:311-322 | once its blobs are there, a capture is a retention followed by an insertion, or by its failure, in that history |
| `Record.InvAlways` | crates/eggwork-server/src/lib.rs:2646-2679 | every interleaving of publishers, restarts and a stream keeps the record invariant |
| `Record.MemoryIsLastCommit` | crates/eggwork-server/src/lib.rs:2646-2679 | whenever the commit lock is free the snapshot in memory is the last one committed |
| `Record.CommitsAreChained` | crates/eggwork-server/src/lib.rs:2646-2679 | every committed snapshot is built from the one committed just before it, and that one was not terminal |
| `Record.OneTerminalEvent` | crates/eggwork-server/src/lib.rs:2681-2688 | a terminal event is the last event ever broadcast, so there is at most one |
| `Record.TerminalIsFinal` | crates/eggwork-server/src/lib.rs:2646-2679 | a terminal snapshot and its history never change again, across restarts too |
| `Record.StreamIsContiguous` | crates/eggwork-server/src/lib.rs:2690-2739 | a stream delivers after+1, after+2, ... exactly as committed, without gap, duplicate or reordering, however publishing, page load, replay and live receive interleave |
| `Record.NothingAfterTerminal` | crates/eggwork-server/src/lib.rs:2690-2739 | no event follows a terminal one on a stream |
| `Record.CaughtUpMeansComplete` | crates/eggwork-server/src/lib.rs:2378-2424 | a stream with nothing left to replay or receive, while no publisher is at work, has delivered the whole journal |
| `Record.ClosedAtOpening` | crates/eggwork-server/src/lib.rs:2378-2424 | a stream closed at its opening has missed nothing if and only if the terminal event was committed before its page was loaded |
| `Record.EndsComplete` | crates/eggwork-server/src/lib.rs:2690-2739 | a stream that ends without an error has delivered the whole journal, unless it was closed at its opening with the terminal event committed after its page; a stream whose channel closed has missed nothing |
| `Record.ClosedWithoutTerminalEvent` | crates/eggwork-server/src/lib.rs:2378-2424 | a run in which the terminal flag, read after the page, closes a stream that never delivers the terminal event |
| `Record.TrimKeepsSuffix` | crates/eggwork-server/src/store.rs:633-656 | trimming leaves a suffix of the journal, ending at its newest event |
| `Record.TrimIsLongest` | crates/eggwork-server/src/store.rs:633-656 | trimming keeps the longest suffix that fits both bounds |
| `Record.TrimKeepsNewest` | crates/eggwork-server/src/store.rs:633-656 | the newest event always survives trimming when it fits by itself |
| `Record.AfterIsSuffix` | crates/eggwork-server/src/store.rs:408-460 | a page holds every retained event after the cursor, in order |
| `Record.AppendKeepsJournal` | crates/eggwork-server/src/store.rs:286-349 | appending the next event keeps the journal chained and its retained rows a suffix |
| `Lease.SafeAlways` | crates/eggwork-server/src/lib.rs:2007-2029 | in every interleaving, whichever ready branch the monitor's wait takes, an expired lease has passed its current deadline and nobody is moving it, whatever the clocks do |
| `Lease.ExpiredAtItsDeadline` | crates/eggwork-server/src/lib.rs:2007-2029 | the expired flag was raised at an instant at which the deadline, with all renewals so far, had passed |
| `Lease.NoRenewalAfterExpiry` | crates/eggwork-server/src/lib.rs:2184-2225 | after expiry no renewal succeeds: neither the deadline in memory nor the durable one moves again |
| `Lease.MonitorNeverOversleeps` | crates/eggwork-server/src/lib.rs:2007-2029 | as long as the wall clock has not gained on the monotonic one before the deadline, a monitor waiting past the current deadline has a timer that is already due, even when every wake-up is lost |
| `Lease.RenewalNeverShortens` | crates/eggwork-server/src/lib.rs:2184-2225 | under the same condition no step brings the deadline forward; setting the wall clock back, or slowing it, does no harm |
| `Lease.BroughtForwardExactlyWhen` | crates/eggwork-server/src/lib.rs:2184-2225 | for every new lease and every tick, some schedule with no other tick brings the deadline forward if and only if the tick ends before the deadline, the wall clock gains on the monotonic one in it, and the row was not overdue from the start |
| `Lease.OversleepsExactlyWhen` | crates/eggwork-server/src/lib.rs:2007-2029 | for every new lease and every tick, some schedule with no other tick leaves the monitor waiting past the deadline with no branch ready if and only if the tick takes the wall clock, and not the monotonic one, across the whole lease, and the row was not overdue |
| `Lease.WallClockJumpOversleeps` | crates/eggwork-server/src/lib.rs:2007-2029 | one such run, with a lease of 100 ms and a wall clock that jumps by a second in one millisecond |
| `LeaseTicks.BroughtForwardByTicksExactlyWhen` | crates/eggwork-server/src/lib.rs:2184-2225 | for every lease whose row was not overdue from the start and every list of ticks: some schedule with these ticks brings the deadline forward if and only if in some tick the wall clock gains on the monotonic one within the time that the latest renewal possible by then leaves |
| `LeaseTicks.NoOversleepingOverHarmlessHistory` | crates/eggwork-server/src/lib.rs:2007-2029 | over every other list of ticks no schedule leaves the monitor waiting past the deadline with no branch ready |
| `Admission.InvAlways` | crates/eggwork-server/src/lib.rs:1736-1957 | every interleaving of requests, eviction scans, reservations and completions keeps the admission invariant |
| `Admission.PermitsConserved` | crates/eggwork-server/src/lib.rs:1785-1791 | free permits plus permits held is the configured maximum in every state, so unfinished executions never exceed it |
| `Admission.StartsAreDistinct` | crates/eggwork-server/src/store.rs:120-213 | no (id, generation) pair starts two runs, and none that was reserved before the process started starts one |
| `Admission.StartsAreDistinctAcrossRestarts` | crates/eggwork-server/src/store.rs:120-213 | no pair that started a run starts another one in any later process that recovers the rows |
| `Admission.OneLiveGeneration` | crates/eggwork-server/src/store.rs:158-179 | at most one generation of an id is live at any time; all earlier ones exist and have ended |
| `Admission.AdmissionIsBounded` | crates/eggwork-server/src/lib.rs:1792-1813 | every admission leaves at most 1024 executions in memory |
| `Admission.EvictionIsMinimal` | crates/eggwork-server/src/lib.rs:1792-1805 | eviction drops only executions that are durably terminal, and stops as soon as one place is free |
| `Manifest.CheckComponent` | crates/eggwork-core/src/lib.rs:850-883 | a path component is accepted exactly when it is portable |
| `Manifest.CheckPath` | crates/eggwork-core/src/lib.rs:837-885 | a path is accepted exactly when it is relative, ASCII, within depth and length, and every component is portable |
| `Manifest.CheckEntry` | crates/eggwork-core/src/lib.rs:647-682 | one entry is accepted exactly when it is storable, keeps both true totals within their limits and its folded path is new |
| `Manifest.FirstPass` | crates/eggwork-core/src/lib.rs:643-683 | accepts exactly storable entries with distinct folded paths and totals within the limits, and then knows every path; otherwise the fault is one of these and names a clause that fails |
| `Manifest.CheckParents` | crates/eggwork-core/src/lib.rs:684-697 | true exactly when every ancestor of the path is known as a directory |
| `Manifest.SecondPass` | crates/eggwork-core/src/lib.rs:684-697 | true exactly when every ancestor of every entry is listed as a directory |
| `Manifest.Validate` | crates/eggwork-core/src/lib.rs:631-699 | the two-pass validator accepts exactly the valid manifests, over unbounded sums, and every error names a clause that is really violated |
| `Manifest.LogicalBytesExact` | crates/eggwork-core/src/lib.rs:701-709 | on valid manifests the saturating fold is the exact sum of file sizes |
| `Manifest.ValidIsUnordered` | crates/eggwork-core/src/lib.rs:631-699 | acceptance does not depend on the order of the entries |
| `Manifest.FoldedPrefixesAreIdentical` | crates/eggwork-core/src/lib.rs:643-697 | in a valid manifest any two ancestor-or-self prefixes that agree after case folding are identical |
| `Manifest.NoFileIsAnAncestor` | crates/eggwork-core/src/lib.rs:684-697 | in a valid manifest an entry that is an ancestor of another one is a directory |
| `Manifest.ParentsPrecede` | crates/eggwork-core/src/lib.rs:711-719 | in canonical path order every directory precedes all of its descendants |
| `Patch.ValidatePatch` | crates/eggwork-core/src/lib.rs:765-786 | a patch is accepted exactly when its version, entry count, paths and distinctness are right |
| `Patch.ApplyTo` | crates/eggwork-core/src/lib.rs:793-834 | succeeds exactly when the patch is valid and the resulting tree is, returns that tree, and otherwise explains which of the two failed |
| `Patch.AppliedIsOverlay` | crates/eggwork-core/src/lib.rs:793-834 | every path of the result holds what the patch says of it, or else what the base says |
| `Patch.OrderIsIrrelevant` | crates/eggwork-core/src/lib.rs:793-834 | permuting the patch or a valid base does not change the result |
| `Patch.PatchReachesTarget` | crates/eggwork-core/src/lib.rs:711-834 | any patch that overlays the base to the contents of a valid target yields exactly the canonical target |
| `Patch.DifferenceReachesTarget` | crates/eggwork-core/src/lib.rs:711-834 | for every valid base and target, applying their difference to the base yields the canonical target, and the difference is a valid patch if and only if it fits the entry bound |
| `Canonical.NamesAreDistinct` | crates/eggwork-core/src/lib.rs:522-535 | the hash-set scan finds a duplicate environment name if and only if there is one |
| `Canonical.NormalizeIsIdempotent` | crates/eggwork-core/src/lib.rs:1612-1628 | normalising twice is normalising once |
| `Canonical.EqualNormalForms` | crates/eggwork-core/src/lib.rs:1581-1628 | specifications that pass the duplicate check have equal normal forms if and only if they differ only by the order of environment, metadata and declared outputs |
| `Canonical.CanonicalExactlyWithoutTies` | crates/eggwork-core/src/lib.rs:1612-1628 | without the duplicate check the normal form is independent of order if and only if no two different environment entries share a name |
| `Ordering.SortIsStable` | crates/eggwork-core/src/lib.rs:1612-1628 | the sort keeps equally ranked elements in their order |
| `Ordering.SortForgetsOrder` | crates/eggwork-core/src/lib.rs:1612-1628 | a stable sort yields the same result for every permutation if and only if no two different elements tie |
| `Capture.BoundedCapture.PushWithin` | crates/eggwork-runner/src/lib.rs:90-133 | the bulk update of head, tail and counters equals the specification of one push |
| `Capture.BoundedCapture.Push` | crates/eggwork-runner/src/lib.rs:90-133 | the same for a limit split into its two halves |
| `Capture.BulkMatchesOracle` | crates/eggwork-runner/src/lib.rs:90-164 | bulk and per-byte push agree if and only if the tail fits its limit or the limit is zero |
| `Capture.ChunkingIsInvisible` | crates/eggwork-runner/src/lib.rs:89-164 | for every limit and every chunking the capture is the head and tail window of the whole stream, which is what the per-byte oracle builds |
| `Capture.AccountingIsExact` | crates/eggwork-runner/src/lib.rs:89-133 | retained plus omitted is the total, and the total is the length of the stream exactly below 2^64 |
| `Reader.Forward` | crates/eggwork-runner/src/lib.rs:2043-2054 | a chunk is sent whole or its length is counted as dropped |
| `Reader.ReadLoop` | crates/eggwork-runner/src/lib.rs:2030-2056 | after any reads: the capture, the chunks sent, the bytes dropped and the signals raised are those of the data read |
| `Reader.ReadPipe` | crates/eggwork-runner/src/lib.rs:2017-2060 | a finished reader reports the window of the exact payload, sent plus dropped bytes are the payload, every sent chunk is within the limit, and the overflow signal fires once if and only if the policy is terminate and the payload exceeds the limit |
| `Reader.SentPlusDropped` | crates/eggwork-runner/src/lib.rs:2043-2054 | for every set of refused sends, bytes delivered plus bytes dropped are all bytes read |
| `Reader.SignalsOnce` | crates/eggwork-runner/src/lib.rs:2036-2042 | over any chunks the overflow condition holds at most once, and exactly once when the total exceeds the limit |
| `Framing.EventReader.Next` | crates/eggwork-client/src/lib.rs:774-812 | each call yields the next element of what the transport still owes, and the pending buffer never exceeds its cap |
| `Framing.FramedExactlyWithinCap` | crates/eggwork-client/src/lib.rs:774-812 | the stream ends without error if and only if every chunk fits the cap beside the unterminated line before it, and then the frames are the newline split of the concatenation, empty lines dropped and a last unterminated line kept |
| `Framing.ChunkingIsInvisible` | crates/eggwork-client/src/lib.rs:774-812 | two ways to cut one body, both within the cap, are indistinguishable |
| `Framing.CapSeesChunking` | crates/eggwork-client/src/lib.rs:774-812 | beyond the cap the cut does show: one body that is refused in one chunk and accepted in two |
| `Handshake.PrepareIsHonest` | crates/eggwork-runner/src/lib.rs:564-619 | preparation fails exactly when something strict is not allowed by the host, and otherwise applies exactly what was requested and what probe and trust checks allow |
| `Handshake.InvAlways` | crates/eggwork-runner/src/lib.rs:1307-1427 | every interleaving of the helper's effects, the runner's waits, timeouts, cancellation and the death of the helper keeps the launch invariant |
| `Handshake.RequiredIsConfined` | crates/eggwork-sandbox-helper/src/main.rs:75-133 | a required sandbox never starts an unconfined target, and a successful launch reports it applied |
| `Handshake.AppliedMeansEnforced` | crates/eggwork-runner/src/lib.rs:1307-1427 | what is reported as applied was enforced on the only target of the launch |
| `Handshake.SessionExactlyWhenDelivered` | crates/eggwork-runner/src/lib.rs:1971-2014 | without timeout, cancellation or death the runner gets a session if and only if limits were verified, restriction succeeded and the target was spawned |
| `Handshake.AtMostOneTarget` | crates/eggwork-runner/src/lib.rs:1307-1427 | at most one target starts, the direct fallback included, unless the runner gave up waiting for the first status of a launch that may fall back |
| `Handshake.LateStatusStartsTwo` | crates/eggwork-runner/src/lib.rs:1971-2014 | for every launch in which both routes work and nothing strict was asked for, a run in which a timeout before the first status has two targets started |
| `Handshake.TwoTargetsExactlyWhen` | crates/eggwork-runner/src/lib.rs:1307-1427 | a launch has a run that starts two targets if and only if the helper route works, the direct route works and nothing strict was asked for |
| `Handshake.TwoTargetsHappen` | crates/eggwork-runner/src/lib.rs:1307-1427 | that condition is met by a best-effort sandbox on a host where everything works |
| `Handshake.FailureStartsNothing` | crates/eggwork-runner/src/lib.rs:1971-2014 | a launch that fails undisturbed has started no target |
| `Handshake.CancelledAfterSpawn` | crates/eggwork-runner/src/lib.rs:1971-2014 | whenever the helper route works, a run that is reported as cancelled before the spawn although the target was started |
| `Handshake.FailedWithTargetExactlyWhen` | crates/eggwork-runner/src/lib.rs:1307-1427 | a launch has a run in which it fails with its target started if and only if the helper route works |

## Left out

- HTTP, TLS, routing, authorisation, JSON encoding and metrics: plumbing around the modelled logic; encoders and digests are arbitrary functions.
- Workspaces and retained manifests (`workspace.rs`, `operations.rs`): they use the blob store through the statements modelled here.
- `deployment.rs` and `process_tree.rs`: their hard steps belong to other programs and to the operating system.
- Landlock, cgroup, systemd and helper trust checks: each is one arbitrary answer of the host.
- The helper's status byte after the target has ended, and the events counted for it: it reports, and decides nothing in the launch.
- The remaining field checks of `CommandSpec` (lengths, syntax): independent tests of single fields.
- The duplicate-path error of the manifest validator: a duplicate path is a duplicate folded path, which is reported first, so that exit is never taken.
- BlobStore.Store.VerifyExisting: the quarantine of a corrupt file is not modelled, because no step changes a file from outside; `BlobSafety.OpenStoreIsGenuine` shows that it is not reached otherwise.
- LeaseTicks.BroughtForwardByTicksExactlyWhen: rows that were overdue when the lease was created are covered for one tick only, by `Lease.BroughtForwardExactlyWhen`; for oversleeping the exact condition is given for one tick, by `Lease.OversleepsExactlyWhen`.
- SQL errors inside a collection after a file was unlinked, and malformed digests in the tables: no step produces them.
- The content of a file that was not synchronised: the machine lets only a synchronised part be renamed, and part files are arbitrary after a power failure.
- A shard directory that was made for an upload whose part could then not be created: it stays, empty, and changes nothing.
- `find_missing`, `stored_size`, `reference_owners` and `prepare_upload` of the blob store: queries; the last is advisory and the upload repeats its checks under the lock.
- The discovery of declared outputs on disk and the tree checks of a capture: their verdicts are parameters of `ArtifactStore.CaptureDeclared`.
- The expiry order and limit of the artifact collection: `Artifacts` lets a pass drop any set of expired records.
- Request futures dropped in the middle of a publish: every publish that has committed goes on to broadcast.
- Several event streams at once: streams do not influence each other or the record, so one arbitrary stream stands for each.
- Timed progress: the models say what may happen and what is enabled, not when it is scheduled.
