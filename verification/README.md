# A verified model of open-tf-mirror

open-tf-mirror is a caching mirror for Terraform providers. This project models its concurrent
protocols, its crash-safe store, its timed cache, its parsers and its calendar arithmetic in
Dafny 4.11, and proves what they promise for every input, every interleaving, every completion
order and every crash point.

`dafny verify dfyconfig.toml` checks everything.

## How it is organised

| file | what it models |
|---|---|
| `LockTable.dfy` | the per-key table of reference-counted mutexes, with the two-step drop |
| `LockOrder.dfy` | everything a request can wait for, followed through the control flow: no deadlock, every call answered |
| `ArchiveStore.dfy`, `ArchiveCalls.dfy` | double-checked archive fetching and the memo of verified checksums; how calls end |
| `AtomicPublish.dfy` | make-directories, write-temp, sync, rename, sync-directory publishing on a disk with crashes |
| `PublishedContent.dfy` | which bytes a publication shows, and which temporary files are left |
| `TempNames.dfy` | archive paths, temporary names, the start-up cleanup walk |
| `CacheState.dfy` | the state the metadata cache shares, what others may do to it, what every step keeps |
| `LoadContracts.dfy` | what index and version loads promise: their possible answers and grounds |
| `MetadataService.dfy` | the metadata service itself: index and version loads, refreshes, synchronisation |
| `Metadata.dfy`, `Merge.dfy` | metadata records and validators; the platform merge |
| `Backoff.dfy` | the bounded maps of retry deadlines |
| `Discovery.dfy` | service discovery with single flight, backoff and last-good origin |
| `Calendar.dfy`, `CertTime.dfy`, `Der.dfy` | day numbers, certificate times, the DER reader |
| `Resolver.dfy` | chain validation and the throttled certificate reload |
| `ArchiveName.dfy`, `Links.dfy` | the archive-name grammar; links from a version document to an archive |
| `TokenBucket.dfy` | the rate limiter |

Protocols between tasks are step machines over values: a state, the steps enabled in it, and
runs, so that a lemma can quantify over every interleaving. The metadata service is a class whose
methods follow the code. It records the locks it holds, may write or replace an entry only under
that entry's lock, and logs every step; between any two of them `Yield` lets the other tasks do
anything that respects the locks held (`CacheState.Rely`). `CacheState.OthersCanBeReliedOn` closes
the circle: with per-key exclusion, which `LockTable.MutualExclusion` proves, what all tasks
guarantee is what each relies on. Its loads are stated by instants: a ghost trace names logged states
of the service during the call (`LoadContracts.During`), at which the disk was looked at, nothing
fresh was found, the registry could be asked, its answer came, the outcome was noted among the
deadlines, the index used was in memory, and the result was decided.

What the registry answers, whether the disk can be read and what comes of a write are parameters
of a call (`LoadContracts.IndexIo`, `LoadContracts.VersionIo`), so that its contract says what it
makes of each of them. The clock and what other tasks do are nondeterministic.
SHA-256, semantic versions and URL syntax are function parameters; of semantic versions only the
grammar facts of `ArchiveName.SemverFacts` are used. A file's identity determines its bytes, which
is the assumption stated at `src/storage.rs:62-63`.

## Where the code does less than one might expect

Each of these is a lemma with the failing inputs, reached from the start, and the exact condition:

- both writers sync the directory they publish in but none above it, so the first file in a new
  directory can be lost in a crash after success (`AtomicPublish.FirstPublicationLost`,
  `AtomicPublish.SuccessKeptExactly`);
- two overlapping drops of one key can leave a table entry behind (`LockTable.OverlapLeaks`,
  `LockTable.LeakExactly`), which the next lone use removes;
- the publisher trusts its second look at the destination, so a writer from outside in between can
  put a wrong verdict in the memo (`ArchiveStore.PoisonFromStart`, `ArchiveStore.QuietExactly`);
- the first look at an archive refuses links but hashing follows them, so a link swapped in between
  is served (`ArchiveStore.LinkSwapFromStart`, `ArchiveStore.UndisguisedExactly`);
- a version key that keeps a leading `v` is written but not reloaded
  (`Metadata.WrittenDocumentReloads`, `Metadata.DoubledVNotReloaded`); the HTTP layer never makes
  one (`Metadata.HttpKeysReload`);
- a certificate load that publishes after a later claim winds the throttle back
  (`Resolver.SlowLoadFromStart`, `Resolver.HarmlessExactly`);
- rate-limit readings that reach the lock late wind the refill clock back
  (`TokenBucket.LateReadingsExceedLimit`, with the exact account in `TokenBucket.TokensConserved`
  and `TokenBucket.ForwardMinusBackward`);
- an index may list platforms no archive can be named after, and a version with one is never
  complete (`Metadata.ListedPlatforms`, `LoadContracts.UnnameableNeverComplete`);
- provider types with dots can share archive names (`ArchiveName.CollideExactly`), and the storage
  side refuses them although the metadata side does not (`Links.StorageAcceptsExactly`).

## Model

| member | source | states |
|---|---|---|
| `LockTable.InvKept` | src/metadata.rs:742-772 | Every step of every interleaving (create or reuse a handle, acquire, unlock, cancel a wait, removal check, later reference drop) keeps exact reference counts, exact holders, and "a handle that has not run its removal check holds the table's own mutex", so the identity test never decides |
| `LockTable.MutualExclusion` | src/metadata.rs:742-772 | After any run by any number of tasks, at most one task per key is in its critical section |
| `LockTable.RefinesPlainMutex` | src/storage.rs:320-332 | The table with its reference counts and removals behaves, step for step, like one permanent mutex per key: the same runs are possible, and each leads to the same phases |
| `LockTable.LeakExactly` | src/metadata.rs:748-759 | A step abandons an entry if and only if it is the removal check of the last handle of the key and another drop of that mutex is half done |
| `LockTable.NoLeakWithoutOverlap` | src/metadata.rs:748-759 | In runs without overlapping drops the table holds exactly the keys in use |
| `LockTable.OverlapLeaks` | src/storage.rs:457-468 | A concrete run in which two overlapping drops both skip the removal, so the footprint claim is false without the condition |
| `LockTable.LoneUseReclaims` | src/storage.rs:457-468 | An abandoned entry is removed by the next lone acquire and release of its key, which leaves everything else as it was |
| `ArchiveStore.HashFile` | src/storage.rs:422-449 | Hashing buffer by buffer gives the digest of the whole file, or nothing exactly when the file exceeds the size limit |
| `ArchiveStore.ReceiveArchive` | src/storage.rs:376-400 | A download is accepted if and only if the stream is whole, within the limit that a later cache hit applies, and has the expected checksum; what is written is then exactly what was sent; a whole stream within the limit with another checksum is a mismatch, and one refused as too large or broken was so |
| `ArchiveStore.MemoAlwaysSound` | src/storage.rs:257-309 | In every reachable state each memo entry's file identity really has the recorded checksum, while unlocked checks race with downloads and outside writers do anything that `ArchiveStore.QuietExactly` shows to be safe, and the memo has at most 16384 entries |
| `ArchiveStore.CheckRefinesHashing` | src/storage.rs:271-309 | In every reachable state, what the memoised check answers is what hashing would have answered at some instant of the call: a yes means the path led to a matching file, a no that it was not one itself, and a no after hashing that it did not lead to one |
| `ArchiveCalls.ErrOnlyByFail` | src/storage.rs:185-250 | Over every run, a call ends in an error only if one of its own file or network operations failed; no outcome of a check and nothing others do ends it so |
| `ArchiveCalls.EveryCallEnds` | src/storage.rs:185-250 | Every call is over, with Ok or an error, after at most twenty actions of its own |
| `ArchiveCalls.FoundIsServed` | src/storage.rs:271-309 | A call that begins any of its four checks at a path that is a matching file, and stays that file, has answered Ok with that path after four steps, from the memo or by hashing, whatever others do meanwhile |
| `ArchiveCalls.FoundIsServedFromStart` | src/storage.rs:198-209 | The same in every state reachable from the start |
| `ArchiveCalls.WaitersAnswerOk` | src/storage.rs:211-246 | A call that waits behind a publisher, or begins after it, answers Ok unless one of its own operations fails, under any interleaving of calls for the key with one checksum and no outside writer |
| `ArchiveCalls.MemoNotes` | src/storage.rs:299-308 | What a call notes is what later checks find: a matching hash or a publication with its identity and checksum, while a mismatch leaves the place without a verdict |
| `ArchiveCalls.MemoElsewhere` | src/storage.rs:257-269 | No step changes what is remembered of any other place, except that a new place clears a memo that holds 16384 |
| `ArchiveStore.OkIsJustified` | src/storage.rs:185-250 | Every successful call is justified by an instant during it at which the path it names led to a regular file of allowed size with the expected checksum; hashing follows links, the first look does not |
| `ArchiveStore.OkIsPlain` | src/storage.rs:271-309 | In runs in which no outside writer swaps in a link to a matching file between a call's look and its hashing, every Ok rests on the path itself having been a regular matching file |
| `ArchiveStore.UndisguisedExactly` | src/storage.rs:276-298 | That condition is exact: in every reachable state a write keeps it if and only if every later Ok still rests on the path itself having been a matching file |
| `ArchiveStore.LinkSwapFromStart` | src/storage.rs:422-433 | The failing run, from the start: one call answers Ok although its path was a wrong file or a link at every instant |
| `ArchiveStore.QuietExactly` | src/storage.rs:403-414 | The condition on writes between the rename and the second look is exact: in every reachable state a write leaves nothing, no regular file or one with the published checksum there if and only if nothing that follows can make the memo unsound |
| `ArchiveStore.WindowPoisonsMemo` | src/storage.rs:403-414 | Any write outside that condition, followed by the publisher's second look and note, leaves a wrong verdict in the memo |
| `ArchiveStore.PoisonFromStart` | src/storage.rs:342-416 | The failing run, from an empty store: one call downloads, a wrong file is swapped in before the second look, the memo holds it as right, and the next call answers Ok with it although its path never led to a right file (unless the wrong file is too large) |
| `ArchiveStore.PoisonIsServed` | src/storage.rs:271-309 | A wrong verdict in the memo, however it got there, is served: every later call answers Ok while the file stays |
| `ArchiveStore.OnceKept` | src/storage.rs:230-250 | Every step keeps "no task is about to download once the key has been published" |
| `ArchiveStore.PublishedAtMostOnce` | src/storage.rs:185-250 | For any number of concurrent calls on one key with one checksum and no outside writer, at most one rename onto the destination ever happens, and from then on it matches |
| `AtomicPublish.InvKept` | src/metadata.rs:1004-1030 | Each step of a temp-write, sync, rename, directory-sync writer, a failure of any of them, or a crash anywhere, keeps every visible and every durable destination complete |
| `AtomicPublish.PublishedIsComplete` | src/storage.rs:356-405 | After any number of writers, failures, crashes and restarts, a destination holds its first content or content some writer was asked for and accepted in full |
| `AtomicPublish.CrashKeepsOldOrNew` | src/metadata.rs:1004-1030 | At every crash point a destination that is still there has its old file or its new one, byte for byte |
| `AtomicPublish.CrashSparesExactly` | src/storage.rs:403-405 | In every reachable state, no crash can take a published name away if and only if its entry is in memory and on disk and the entry of every directory on the way to it is durable |
| `AtomicPublish.SuccessKeptExactly` | src/storage.rs:359-405 | What a successful writer published is still there after every later run, with any crashes, failures and restarts, or replaced by a later rename, if and only if the entries of all directories on the way were durable before it synced its own; off Unix, where nothing is synced, the file's own entry must have been durable too |
| `AtomicPublish.KeptIfDirectoryFound` | src/storage.rs:532-538 | The writers themselves never make the way durable: on Unix, short of a flush by the system, what a process publishes is kept if and only if its directory was there when the process started |
| `AtomicPublish.FoundDirectoryKeeps` | src/metadata.rs:1034-1040 | On Unix, whatever the system flushes and however often the process restarts, what is published in a directory found at some start is kept |
| `AtomicPublish.FirstPublicationLost` | src/metadata.rs:1004-1030 | The failing run, from the start: the first publication in a directory that was not there succeeds, and a crash right after it takes the file away |
| `AtomicPublish.NoTempCollision` | src/storage.rs:547-576 | After a successful start-up cleanup neither writer ever finds its next temporary name taken, whatever process ids and numbers of the two sequences earlier processes used |
| `PublishedContent.FileIsSent` | src/storage.rs:385-393 | In every reachable state, with any writers at work, the temporary file of a writer holds exactly the bytes that writer wrote |
| `PublishedContent.RenameShowsSent` | src/storage.rs:394-404 | In every reachable state a rename puts at its name exactly the bytes its writer wrote: the very document asked for, or an archive within the size limit with the expected checksum; it takes the temporary name away and leaves every other published name alone |
| `PublishedContent.OnlyRenamesChange` | src/metadata.rs:1004-1030 | Short of a crash, what is published at a name changes only by a rename onto it |
| `PublishedContent.TidyExactly` | src/storage.rs:366-369 | If every temporary name belongs to a writer under way, any step short of a crash keeps it so, if and only if it is not a failure whose cleanup failed too |
| `PublishedContent.StaysTidy` | src/storage.rs:545-576 | After a start whose cleanup succeeds, while failing writers can remove their files, the only temporary names are those of writers under way, and none once all have finished |
| `PublishedContent.CollisionEnds` | src/storage.rs:366-369 | A writer that finds its temporary name taken fails and uses up its number; a download takes the name away, a document leaves it, and nothing else changes |
| `TempNames.ArchivePathInjective` | src/storage.rs:176-183 | Distinct keys of plain components have distinct archive paths |
| `TempNames.TempNameInjective` | src/storage.rs:360-365 | A temporary name determines the stem, the process id and the sequence number it was made from |
| `TempNames.SortsNeverClash` | src/metadata.rs:1007-1008 | A download and a metadata write never share a temporary name, although each has its own sequence |
| `TempNames.NamesSpelled` | src/storage.rs:176-183 | Archive paths and temporary names, character by character |
| `TempNames.RemovedExactly` | src/storage.rs:562-563 | The cleanup removes a file if and only if its name is a dot, anything, and .tmp, or just .tmp |
| `TempNames.CleanupTellsApart` | src/storage.rs:560-565 | The cleanup pattern matches every temporary name, and no archive, index or version document |
| `TempNames.Walk` | src/storage.rs:548-569 | A walk succeeds if and only if no file operation fails before it has seen everything, and then has removed exactly the temporary files of the tree and counted them; one that fails has removed nothing else |
| `TempNames.CleanExactly` | src/storage.rs:547-576 | A path has a file after a successful cleanup if and only if it had one before and its name is not temporary |
| `CacheState.OthersCanBeReliedOn` | src/metadata.rs:407-408 | Over any stretch of any run in which every step is made under its owner's locks and no key is locked by two tasks, a task that takes no step finds the entries of its locked keys untouched and everything else only evolved |
| `CacheState.PutIndexStep` | src/metadata.rs:464-467 | Making an index visible keeps "every entry in memory has been on disk and passes validation" and touches no other key |
| `CacheState.PutVersionStep` | src/metadata.rs:653-658 | The same for a version document |
| `CacheState.PublishStep` | src/metadata.rs:1004-1030 | Renaming a document into place keeps the invariant and changes nothing in memory |
| `CacheState.FilesDistinct` | src/metadata.rs:660-673 | Every document has a file of its own, but for a version spelled index |
| `CacheState.WrittenVersionsReload` | src/metadata.rs:842-873 | Whatever a process wrote for a version key with no leading v is accepted by the reload validator of the next process |
| `CacheState.MemoryReloads` | src/metadata.rs:842-873 | So is everything held in memory for such a key |
| `MetadataService.DiscoverIndices` | src/metadata.rs:675-740 | Start-up finds an index if and only if its file decodes, validates, and lies under an allowed host and valid component names; the walk order does not matter |
| `MetadataService.WrittenIndicesFoundAgain` | src/metadata.rs:675-740 | Every index an earlier process wrote for an accepted key is found again after a restart while its file holds it |
| `MetadataService.Service.constructor` | src/metadata.rs:154-188 | A service starts on the disk as found, with the discovered indices and empty deadline maps, in a valid state |
| `MetadataService.EntriesNeverLeave` | src/metadata.rs:401-518 | Over the whole life of a service each of its own steps touched only entries whose lock it held then and every state was sound; nothing that was ever in memory has left, and it was replaced only by something written to disk first |
| `MetadataService.Service.WriteJson` | src/metadata.rs:1004-1030 | A write leaves the disk as it was if it fails before the rename, and otherwise with the whole document in place; it reports success if and only if the directory was synchronised too |
| `MetadataService.Service.RefreshIndexUnlocked` | src/metadata.rs:452-467 | The outcome is determined by the answer: a refusal is not-found or a registry error, an invalid index an address error, a valid one that cannot be written an I/O error, and otherwise it is that index, complete, stamped with the clock at the instant the answer came; a failure leaves memory alone |
| `MetadataService.Service.RefreshAndSettle` | src/metadata.rs:436-445 | Asks and notes the outcome among the deadlines: success clears the key's and nothing else; a failure of the registry or the disk sets it one backoff ahead, drops those past and, of a full map, one earliest; any other failure changes none |
| `MetadataService.Service.SettleIndex` | src/metadata.rs:437-444 | The noting itself: between two instants of the call only the deadlines change, and exactly so |
| `MetadataService.Service.ReloadIndex` | src/metadata.rs:414-427 | If the disk can be read, the index in memory afterwards is the very one on disk at an instant of the call, or none if that was corrupt, invalid or missing |
| `MetadataService.Service.IndexAtHand` | src/metadata.rs:409-431 | Under the lock: an index from memory, or from the disk if memory has none, is the answer only while younger than its lifetime; the load fails here if and only if the disk had to be read and could not be |
| `LoadContracts.FreshExactly` | src/metadata.rs:86-95 | The saturating age test passes if and only if the clock is before the fetch time plus the lifetime, the shorter one for a partial entry, and that lifetime is positive |
| `MetadataService.Service.LoadIndex` | src/metadata.rs:401-450 | With others at work between any two steps: a known key is always answered with an index; the answer is an entry younger than its lifetime (the shorter one if partial), a refreshed one, or the cached one under a deadline or after a failure; the very index on disk, if usable, is in memory before the registry is asked; the registry is asked only when nothing younger than its lifetime was found and, after that, no deadline was in force; what it answers determines the result or the reason for falling back and is noted among the deadlines; the load fails for an unreadable disk if and only if memory had nothing and the disk could not be read |
| `MetadataService.Service.SyncKnown` | src/metadata.rs:309-344 | Every index known at the start is asked for again exactly once, at an instant of the call; each result is that answer stamped with that instant and written, or its error; the failure count is exactly the number of errors |
| `MetadataService.Service.IndexFor` | src/metadata.rs:520-558 | Begins with an index load and its grounds; the index used was in memory at an instant of the call: the loaded one if it lists the version, one listing it on the second look, one that does not while a deadline is in force, or one asked for again, exactly when the index then in memory did not list it and no deadline was in force, the miss deadline being set before asking; an error is the load's or the answer's |
| `MetadataService.Service.LookFurther` | src/metadata.rs:522-558 | After the load: an index that lists the version is used unchanged; one that does not is kept only under one of the two deadlines, and otherwise gives way to one that lists it on the second look or to what the registry answers now |
| `MetadataService.Service.LookUnderDeadline` | src/metadata.rs:528-558 | The rest of that lookup once no recent miss forbids asking: the index failure deadline, then the second look under the index lock |
| `MetadataService.Service.ForceIndex` | src/metadata.rs:529-558 | The second look under the index lock: the index in memory then, if it lists the version or a deadline is in force, or what the registry answers now |
| `LoadContracts.SummaryIs` | src/metadata.rs:559-564 | The summary found is the first listed line for the version up to one leading v, and there is one if and only if the version is listed |
| `LoadContracts.UnnameableNeverComplete` | src/metadata.rs:785-819 | An index line with a platform no archive can be named after makes every document for that version partial, whatever the registry answers |
| `MetadataService.Service.FetchPackages` | src/metadata.rs:571-596 | Every platform is asked for exactly once, its answer coming in any order, and counts exactly as it should: a package if it passes validation against its own request, else an address error; a refusal as not-found or a registry error |
| `MetadataService.Service.MergeAndStore` | src/metadata.rs:565-658 | Given the answers, the result is determined: the merge of what they count as with the cached platforms, stored field by field under the key, stamped at the merge and complete if and only if no fetch failed; the first error if there is nothing to store; an I/O error if it cannot be written; a failure leaves the cached version alone |
| `MetadataService.Service.RefreshVersion` | src/metadata.rs:520-658 | The result is the lookup's error, or not-found if the index looked up has no line for the version, or rests on that line of an index that was in memory during the call, on what was cached when the refresh began, and on each answer counted as it should, stamped at the instant of the merge and written before it became visible; an error leaves memory alone |
| `MetadataService.Service.LoadVersion` | src/metadata.rs:469-518 | The same contract as for an index: a known version is always answered, from an instant of the call; a hit is younger than its lifetime; the very document on disk, if usable, is in memory before any refresh; a refreshed answer or the error fallen back from is that of a refresh with its index lookup, cached packages and answers, and is noted among the deadlines; it fails for an unreadable disk if and only if memory had nothing and the disk could not be read |
| `MetadataService.Service.VersionAtHand` | src/metadata.rs:477-499 | What memory and disk can answer under the version lock, as for an index |
| `MetadataService.Service.GetVersion` | src/metadata.rs:254-285 | Any address is accepted: invalid ones and registries not allowed get their errors, a version that does not exist is an empty answer, a known version is always returned, and every answer has the load's grounds |
| `Merge.SortRestoresOrder` | src/metadata.rs:571-597 | Sorting any completion order of the concurrent fetches gives back the request order |
| `Merge.MergePlatforms` | src/metadata.rs:566-635 | The merge depends only on the results in request order, so it is the same for every completion order |
| `Merge.ContributionDistinct` | src/metadata.rs:620-634 | For an index with distinct platforms each contributes the fetched package if it succeeded, else the cached one, else nothing |
| `Merge.CachedForFirst` | src/metadata.rs:620-634 | Of several cached packages of one platform the first is kept |
| `Merge.FirstErrorExactly` | src/metadata.rs:599-619 | There is no error if and only if every fetch succeeded, and otherwise it is that of the earliest failing request |
| `Merge.CompleteCoversIndex` | src/metadata.rs:621-635 | A complete document covers the index, platform for platform, with what was just fetched |
| `Merge.NothingLost` | src/metadata.rs:621-634 | A platform still in the index that was fetched or cached is stored |
| `Merge.MergedFollowsIndex` | src/metadata.rs:620-634 | The stored list follows the index order and is no longer than the index |
| `Merge.MergedIsValid` | src/metadata.rs:620-646 | Validated fetches over a validated cache give a document whose packages all validate |
| `Metadata.WrittenDocumentReloads` | src/metadata.rs:842-873 | A document written for a validated key passes the reload validator if and only if the key has no leading v |
| `Metadata.ReloadedExactly` | src/metadata.rs:842-873 | A document is reloaded for a key if and only if it is of that very provider and version, spelled with or without one v, and has at most 128 platforms, each valid |
| `Metadata.PackageAcceptedExactly` | src/metadata.rs:785-819 | A package is accepted for a request if and only if it is for that platform, its file is one of the printed names of that version and platform, its checksum is 64 hexadecimal digits and its link an https one |
| `Metadata.VersionAcceptedExactly` | src/metadata.rs:920-932 | A version is accepted if and only if, after one v if there is one, it is 1 to 100 letters, digits, dots, dashes and pluses, and no step along a path |
| `Metadata.ComponentRefusedExactly` | src/metadata.rs:910-918 | A name in an address is refused if and only if it is empty, too long, a step along a path or has a foreign character |
| `Metadata.IndexRefusedExactly` | src/metadata.rs:821-840 | An index is refused if and only if it has over 4096 versions, an invalid one, one with over 128 platforms, or an invalid platform |
| `Metadata.ArchiveVersionsValid` | src/metadata.rs:287-307 | The version in an accepted archive name needs no normalising and is a valid version key if and only if it has at most 100 characters |
| `Metadata.ListedPlatforms` | src/metadata.rs:898-908 | Of the platforms an archive can be named after, an index may list those of 1 to 32 characters a part; it may list others too, for which no package is ever accepted |
| `Metadata.DoubledVNotReloaded` | src/metadata.rs:930-932 | A concrete address with a doubled v whose document is written but never reloaded |
| `Metadata.DocumentFilesDistinct` | src/metadata.rs:666-672 | Two documents of a provider share a file if and only if they have the same version, or the version is spelled index |
| `Metadata.HttpKeysReload` | src/http_api.rs:205-223 | Every version key the HTTP layer can produce, from a version document's name or from an archive's, has no leading v and is not the index, so its document reloads and has a file of its own |
| `Metadata.RoutesAskFor` | src/http_api.rs:205-223 | A document route asks for the version it names after any number of v, an archive route for the version of the archive in whatever style it is named |
| `Backoff.FailureMap.RecordFailure` | src/metadata.rs:944-961 | Recording sets the key's deadline one backoff ahead, keeps every other that is not past except, of a full map, one earliest, drops those that are, and keeps the bound |
| `Backoff.FindOldest` | src/metadata.rs:952-957 | The scan finds an earliest deadline in whatever iteration order |
| `Backoff.RecordBounded` | src/metadata.rs:944-961 | The map never exceeds 4096 entries, whichever earliest entry is given up |
| `Backoff.InvKept` | src/metadata.rs:934-961 | Every recording, clearing and check keeps "an uncleared deadline is known, past, or was pushed out by a flood" |
| `Backoff.ForgottenOnlyByFlood` | src/metadata.rs:944-961 | Over any run with a strictly increasing clock an uncleared key is forgotten before its deadline only after at least 4095 other distinct keys were recorded since |
| `Backoff.RefusedExactly` | src/metadata.rs:934-942 | Over any run asking for a key is refused only before the deadline of its last uncleared failure, and then always, unless at least 4095 other keys were recorded since |
| `Backoff.ForcedOncePerWindow` | src/metadata.rs:522-558 | Short of such a flood a provider's forced refreshes are a full window apart |
| `LockOrder.InvKept` | src/metadata.rs:407-408 | Every step of loads, forced refreshes, synchronisation, package fetches, downloads and cancellations keeps locks, permits and children where the control flow says they are |
| `LockOrder.WaitingClimbs` | src/metadata.rs:521-545 | Whatever a strand waits for (version, index, discovery or archive lock, download permit, fetch slot, a child to join, or to be started) is held by a strand of strictly higher rank |
| `LockOrder.NoCycle` | src/registry.rs:198-204 | The wait-for graph has no cycle |
| `LockOrder.FetchesBounded` | src/metadata.rs:571-596 | No version refresh ever has more than eight package fetches started and unfinished, in any run |
| `LockOrder.OneAtATime` | src/storage.rs:237-250 | In every reachable state no two strands load one version, index or archive or discover one host, whatever they are waiting for meanwhile, and at most eight download |
| `LockOrder.EightEach` | src/metadata.rs:571-596 | In every reachable state a queued fetch may start if and only if fewer than eight of its refresh are under way, and a waiting download if and only if fewer than eight are |
| `LockOrder.NeverStuck` | src/storage.rs:237-238 | In every reachable state with an unfinished request, fetch or download, one of them can step |
| `LockOrder.StepUsesWork` | src/metadata.rs:571-596 | Every step other than a new call uses up work, the fetches a version refresh starts included |
| `LockOrder.EveryCallAnswered` | src/storage.rs:351-355 | From every reachable state, whichever enabled steps are taken, with no new calls the run ends within a computed bound and then every request has been answered |
| `Calendar.NextDayIsOneMore` | src/tls_reload.rs:345-375 | The day after any valid date, by the month lengths and leap years, has the next day number |
| `Calendar.CountsDaysFromEpoch` | src/tls_reload.rs:360-375 | The closed formula equals counting single days on or back from 1970-01-01, by the month lengths and leap years, for every valid date |
| `Calendar.DayNumberStrict` | src/tls_reload.rs:360-375 | Day numbers are strictly increasing in calendar order |
| `Calendar.CheckedConversion` | src/tls_reload.rs:360-375 | For years of at most four digits no overflow check fails, the year-0 January and February branch included, and the result lies in a stated range |
| `CertTime.TimestampFits` | src/tls_reload.rs:318-330 | The timestamp of any readable time is computed without overflow |
| `CertTime.DenotedTimeIsRead` | src/tls_reload.rs:275-331 | Every string that denotes a time under sections 4.1.2.5.1 and 4.1.2.5.2 of RFC 5280, as the program admits it, is read as that time |
| `CertTime.ReadTimeIsDenoted` | src/tls_reload.rs:275-331 | Everything the reader accepts denotes the time it returns, so nothing else is accepted |
| `CertTime.ReadTimesFollowCalendar` | src/tls_reload.rs:275-331 | Times read compare exactly as their calendar dates and clock times do, across the two formats |
| `Der.ReadDerTlv` | src/tls_reload.rs:236-273 | The cursor loop with its machine-word length computes the specification: it fails, or splits the input into tag, value and remainder, and no bit of the length is lost in the shifts |
| `Der.WrittenIsRead` | src/tls_reload.rs:236-273 | Every definite-length element (section 8.1.3 of X.690), in any admitted length form, is read back as its tag, value and the rest |
| `Der.ReadIsWritten` | src/tls_reload.rs:236-273 | Every input the reader accepts is such an element followed by the remainder |
| `Der.EncodeThenRead` | src/tls_reload.rs:236-273 | The shortest encoding of any tag and value is read back exactly |
| `Der.WriteThenReadCertificate` | src/tls_reload.rs:187-234 | Parsing any written certificate skeleton (section 4.1 of RFC 5280) returns exactly its validity pair |
| `Der.ReadCertificateIsWritten` | src/tls_reload.rs:187-234 | Every accepted input is such a skeleton with the returned validity |
| `Resolver.ValidateCertificateValidity` | src/tls_reload.rs:168-185 | A chain is admitted if and only if the clock reading lies within the inclusive validity of every certificate; the result is the earliest end |
| `Resolver.AdmittedUntilEnd` | src/tls_reload.rs:168-185 | An admitted chain stays admitted exactly until that end |
| `Resolver.OnlyValidChainsServed` | src/tls_reload.rs:62-117 | Over every interleaving of handshakes, reloads and ticks, a chain is returned only if it was valid at some moment of the call |
| `Resolver.LastGoodPairKept` | src/tls_reload.rs:84-116 | Only a successful load replaces the cached pair; a handshake goes without a certificate only if the cached one has run out for it |
| `Resolver.AnsweredFromPair` | src/tls_reload.rs:66-116 | A handshake is answered with the chain it has just loaded itself, or else with the pair cached at that instant, exactly if that has not run out for it |
| `Resolver.LoadedIsFound` | src/tls_reload.rs:84-92 | What a load found is what its handshake keeps and publishes |
| `Resolver.DueIsClaimed` | src/tls_reload.rs:73-82 | In every reachable state a handshake whose reading is an interval or more after every claim passes both looks and claims the reload under its reading |
| `Resolver.RecentIsServed` | src/tls_reload.rs:65-81 | A look ends the handshake at once, answered from the cached pair with nothing shared changed, if and only if it is less than a positive interval after the stamp |
| `Resolver.ClaimsSpaced` | src/tls_reload.rs:73-92 | From the start, with a positive interval, reloads are claimed at least one interval apart when each load publishes before the next claim, or late but with an interval passed since the last claim and no handshake under way that read the clock in between |
| `Resolver.HarmlessExactly` | src/tls_reload.rs:84-92 | That condition is exact: in every reachable state a publication keeps it if and only if the claims stay spaced whatever follows |
| `Resolver.LatePublishBreaksSpacing` | src/tls_reload.rs:84-92 | Any publication outside that condition can be followed by a handshake, under way or new, that claims within an interval of the last claim |
| `Resolver.SlowLoadFromStart` | src/tls_reload.rs:62-92 | The failing run, from the start: one slow load and two further handshakes give two claims at one moment, for every positive interval |
| `Resolver.ZeroIntervalDisorders` | src/tls_reload.rs:73-82 | A positive interval is needed: with none, an overtaken handshake claims with its older reading |
| `ArchiveName.PrintThenParse` | src/provider.rs:13-71 | Printing a name in either format, with or without v, and parsing it gives back version, OS and architecture |
| `ArchiveName.ParseThenPrint` | src/provider.rs:13-71 | Every accepted file name is one of those printed forms of what it parses to |
| `ArchiveName.OneTypePerArchive` | src/provider.rs:13-22 | One file name parses under at most one dot-free provider type |
| `ArchiveName.CollideExactly` | src/provider.rs:13-71 | For types of different length a file name parses under both if and only if the longer one is the shorter, a hyphen and a text p, and the name is the dashed archive of a version written p-u of which u is a version too, with or without v |
| `ArchiveName.CollisionExample` | src/provider.rs:36-53 | A name that parses under two types: the dashed archive of version 1.0.0-2.0.0 of one is that of version 2.0.0 of the other |
| `Links.HostnamesAgree` | src/storage.rs:517-530 | The metadata side accepts a hostname if and only if the storage side does and it has at most 253 characters |
| `Links.StorageAcceptsExactly` | src/storage.rs:492-504 | Of the archives the metadata side accepts, the storage side accepts exactly those whose namespace and type have no dots |
| `Links.AcceptedKeysHaveOwnPaths` | src/storage.rs:176-183 | Accepted keys have distinct archive paths |
| `Links.FindsItself` | src/metadata.rs:287-307 | Looking a platform up by its file name finds that platform |
| `Links.LinkIntegrity` | src/http_api.rs:235-281 | Every archive link of a version document of a dot-free provider routes to its file, asks for the same version key, finds the same platform (the very package, when no platform is listed twice), passes the storage key check, and the checksum expected is that package's, digit for digit |
| `Links.ChecksumExactly` | src/storage.rs:506-515 | A checksum is expected if and only if the package names one of 64 hexadecimal digits, and it is that one, digit for digit in lower case |
| `Links.ResponseKeysDistinct` | src/http_api.rs:238-252 | Two packages share a response key if and only if they are for the same platform, and the key split at its last underscore is that platform |
| `TokenBucket.Limiter.constructor` | src/http_api.rs:138-148 | A bucket starts full, with a rate and burst of at least one |
| `TokenBucket.Limiter.TryAcquire` | src/http_api.rs:150-162 | One request leaves the old tokens plus the rate times the elapsed time, or the burst if that is less, minus one if it is granted; it is granted exactly when a whole token is there; the refill clock is the reading |
| `TokenBucket.TokensConserved` | src/http_api.rs:150-162 | Over any run, grants plus spill plus what is left equal the starting tokens plus the rate times the forward clock movements; the level stays between zero and the burst |
| `TokenBucket.SpillsAtBrim` | src/http_api.rs:154-155 | Tokens are lost only when the bucket is full |
| `TokenBucket.NothingLostBelowBrim` | src/http_api.rs:150-162 | Over any run that never finds the bucket full, grants plus what is left equal the starting tokens plus the rate times the forward clock movements |
| `TokenBucket.AdmittedExactly` | src/http_api.rs:150-162 | After any run a request is admitted if and only if there is room for it in every stretch of requests ending with it: burst plus rate times forward movements, minus the grants of the stretch, is at least one, and so for the whole run with the starting tokens |
| `TokenBucket.ForwardMinusBackward` | src/http_api.rs:151-155 | The forward movements that refill the bucket are the elapsed time plus the backward movements, which vanish if and only if the readings ascend |
| `TokenBucket.BurstPlusRate` | src/http_api.rs:150-162 | Over any run grants are at most burst plus rate times elapsed time plus rate times the backward clock movements in lock order, of which there are none if and only if lock order follows clock order |
| `TokenBucket.LateReadingsExceedLimit` | src/http_api.rs:151-155 | With readings that lock late the limit fails by any margin: a bucket of rate and burst one, made at time zero, grants any number of requests within its first second |
| `TokenBucket.QuietSecondAdmits` | src/http_api.rs:164-177 | After any run one quiet second admits the next request, so Retry-After 1 is truthful |
| `TokenBucket.RejectionEndsExactly` | src/http_api.rs:150-162 | A rejection lasts exactly until the missing fraction of a token has flowed in |
| `Discovery.InvKept` | src/registry.rs:187-267 | Every step keeps one request in flight per host, and cache entries consistent with the last completion |
| `Discovery.RequestsSpaced` | src/registry.rs:187-267 | Whatever the interleaving, a request starts with none in flight and no sooner than 30 seconds after a failure or 30 minutes after a success |
| `Discovery.NoneLostWithoutCancel` | src/registry.rs:187-267 | Without cancellation every request started completes before the next starts, so the spacing is between consecutive requests |
| `Discovery.OriginNeverLost` | src/registry.rs:244-267 | Once an origin is known it is never lost, and every later call that finishes returns an origin |
| `Discovery.OriginIsLatest` | src/registry.rs:244-255 | In every reachable state the cached origin is that of the last successful request |
| `Discovery.EveryStepDecides` | src/registry.rs:187-267 | Every step of a call is decided by the run before it: it is answered with the last success while that is younger than 30 minutes or the last failure younger than 30 seconds, held off after a failure with no success, and otherwise goes on to a request of its own |
| `Discovery.AnswerWasLatest` | src/registry.rs:187-267 | Every origin answered was that of the last successful request, its own included, at the step that finished the call |

## Left out

- Sockets, TLS handshakes, HTTP routing and status codes, command-line parsing and the accept loop in `src/main.rs`: library behaviour.
- `src/outbound.rs`: sending requests and classifying addresses.
- SHA-256, JSON, PEM and key parsing, URL parsing and semantic versions are function parameters or decoded documents; a document either decodes to its kind or is corrupt.
- `insert_version` (`src/metadata.rs:190-233`): a seeding helper that skips validation and would break the cache invariant.
- `list_versions` (`src/metadata.rs:235-252`): sorting and de-duplicating the listed versions would only add easy members.
- File operations that outlive a cancelled future: an awaited file operation is one step.
- MetadataService.Service.SyncKnown: does not model the flag that refuses a second synchronisation at the same time, which nothing else reads.
- MetadataService.DiscoverIndices: does not model an I/O error during start-up, which ends the program.
- MetadataService.Service.FetchPackages: does not model the limit of eight fetches in flight, because the contract holds for every completion order; the limit and the waiting it causes are in `LockOrder`.
- ArchiveStore.PublishedAtMostOnce: the machine keeps tasks, locks and files as values instead of objects updated in place, so that runs of any number of tasks can be quantified over; the same holds for `LockTable`, `AtomicPublish`, `Resolver` and `Discovery`.
- ArchiveStore.MemoAlwaysSound: assumes that the bundled mirror is a different place from the data directory, and that outside writers keep to the condition of `ArchiveStore.QuietExactly`, which is exact.
- AtomicPublish.KeptIfDirectoryFound: assumes that no file is published above the directory, which holds because all published files lie at one depth (`src/storage.rs:176-183`, `src/metadata.rs:660-672`).
- TokenBucket.TokensConserved: uses real numbers, so floating-point rounding is not modelled.
- LockOrder.EveryCallAnswered: registry, disk and network operations are taken to return, and a free lock can be taken by any waiter, which includes the first in line.
- Helm chart, Docker image, scripts, logging and readiness probes.
