# Cynara in Dafny

A model of the core of Cynara, a service that answers whether a client may use a
privilege, and proofs about it.  `dafny verify dfyconfig.toml` checks the project.

The model covers five parts of the system.

* **The commit protocol of the policy database** (`FileSystem`, `Commit`,
  `CrashSafety`, `Recovery`, `Integrity`).  A directory with inodes, hard links and
  unsynchronised state; a save that writes backups, a guard, relinks and cleans
  up; a load that finishes what was interrupted.  A crash may strike between any
  two system calls.  It keeps or loses every unsynchronised directory entry
  independently of the others, and may replace unsynchronised contents by
  anything.  A failure, by contrast, stops an operation and leaves everything as
  it is for the next one.
* **Policies and their store** (`PolicyTypes`, `PolicyKeys`, `PolicyBuckets`,
  `LinkGraphs`, `PolicySearch`, `RecursiveErase`, `Storage`).  Indexed buckets,
  the search for the minimal policy over linked buckets, the recursive erase, and
  the administrative operations.
* **The database text format and MD5** (`DatabaseText`, `DatabaseFiles`, `Md5`).
* **The client libraries** (`SequenceContainer`, `AsyncAccounts`, `AsyncLogic`,
  `CapacityCache`, `MonitorCache`, `SocketClients`, `ClientLogic`).  The
  asynchronous client with re-entrant callbacks, and the synchronous one with its
  least-recently-used cache and the responses it has read and not yet taken.
* **The wire** (`Numbers`, `BinaryQueues`, `Wire`, `Messages`, `MessageReaders`,
  `Protocol`, `Streaming`, `Sockets`).  The byte queue, frames and messages of the client and
  admin protocols, incremental decoding, and the sending side of the socket.

What is outside the program comes in as a parameter: the outcomes of `poll`,
`send` and `read`, the time, the responses of the service, the answers of
plugins, the listing of a directory and the iteration orders of hash maps are
arbitrary.  User code is a `Script`, a finite tree of the operations it performs, with the code of every
callback it triggers inside; every theorem holds for all scripts.

## Where the code does not keep a promise

* With monitoring enabled an accepted asynchronous request can end without any
  callback: the answer is processed after the request has been released, and a
  monitor flush in between may throw
  (`AsyncLogic.MonitoringLosesAnAnswer`).  Without monitoring, and with it as long
  as no flush for the answer to a check throws, every request gets exactly one
  callback (`AsyncLogic.UseClient`).  A throwing flush also makes
  `cynara_async_finish` return without finishing
  (`AsyncLogic.AsyncClient.FinishAll`).
* The synchronous client does not compare sequence numbers and keeps what it has
  read over reconnections and errors.  A check can therefore be answered, and the
  cache filled, with the answer of a lost connection
  (`ClientLogic.AnswerOfALostConnectionIsStored`) or with the answer to another
  key (`ClientLogic.AnswerToAnotherKeyIsServed`).  The response taken is the
  answer to the request just sent exactly if nothing was left of earlier requests
  when it was sent for the last time (`ClientLogic.Client.TakenIsOwnIff`,
  `SocketClients.IdleAtLastSendIff`).
* The synchronous client can also serve an answer from before a reconnection after
  it because a monitor flush between the receipt of an answer and its caching
  finds the connection lost (`ClientLogic.StaleAnswerIsServed`).  These two are
  the only ways (`ClientLogic.Client.Check`).
* The synchronous client reports every check that the service has answered to the
  monitor as denied, allowed ones included, because it records the status of the
  request instead of the verdict (`ClientLogic.FirstCheck`).
* The type of the answer to a check from a bucket can depend on the iteration order
  of hash maps, exactly when breaking every tie between a bare NONE and one with
  metadata for the one gives that bucket another type than breaking it for the
  other (`PolicySearch.TypeFromBucketIff`).  The type together with whether a NONE
  is bare can, exactly when the two verdicts of the bucket differ at all
  (`PolicySearch.OutlineFromBucketIff`); this happens to some bucket exactly when
  one contributes NONE both bare and with metadata while nothing in it denies
  (`PolicySearch.OutlinesIndependentIff`).  The whole result of some bucket can,
  exactly when different results tie (`PolicySearch.ResultsIndependentIff`); for
  one bucket, the possible results are its verdicts over all ways to break ties
  (`PolicySearch.AnswersAreVerdicts`).
* The recursive erase does not end when links that survive the filter form a
  cycle among the reachable buckets, and ends in all other cases
  (`Storage.EraseFinishesIffAcyclic`).
* A load that follows a failed save or a failed load in the same boot can lose the
  database to a crash, exactly when the failure fell between creating or unlinking
  the guard and synchronising the directory (`Recovery.LoadAfterFailedSave`,
  `Recovery.LoadAfterFailedLoad`).  Undisturbed, a load settles a guard that was
  created and not synchronised (`Recovery.LoadSettlesTheGuard`).
* A save that follows a failed save without a load in between can lose both
  databases to a crash, exactly when the first one had created the guard and not
  yet made its last call (`Recovery.SecondSaveIsSafeIff`).
* Updating the cache for a key that is in it is undefined behaviour exactly when
  the cache is full and the key is the least recently used one
  (`CapacityCache.IteratorSurvivesEviction`).  The synchronous client never does
  this (`ClientLogic.Client.Check`), but the asynchronous one can
  (`AsyncLogic.CachedKeyIsAnsweredAgain`).
* A SetPolicies request loses its empty groups on the wire, and nothing else
  (`Messages.SetPoliciesRoundTrip`).
* The declared length of a frame is not what decoding consumes, unless it is the
  length the frame has (`Streaming.DeclaredLengthIsNotSkipped`); the encoders
  never produce a frame with another one, as long as header and body together are
  shorter than 2^32 bytes (`Streaming.NextFrameOnPrefix`).
* `Socket::isDataToSend` keeps answering true after everything has been sent,
  exactly if the last call had anything new to send
  (`Sockets.Socket.SendToServer`).
* Bucket ids are validated with `strchr`, which also accepts NUL
  (`Storage.PolicyStore.CheckId`).  The file theorems exclude it from ids.

## Model

| member | source | states |
|---|---|---|
| CrashSafety.SaveIsAtomic | src/storage/InMemoryStorageBackend.cpp:101-117 | A save stopped after any number of system calls, with unsynchronised entries lost name by name and unsynchronised contents garbled at will, leaves a directory from which the next load reads exactly the old or exactly the new files: the old ones up to the creation of the guard, the new ones from the moment the guard is durable |
| CrashSafety.RevalidateSafe | src/storage/Integrity.cpp:87-95 | From a durable guard and durable backups on, every prefix of the revalidation keeps the new database readable after a crash; at its end the primaries are durable, and the guard and all backup names are gone |
| CrashSafety.GuardSafe | src/storage/Integrity.cpp:62-65 | While the guard is being created either database may be the one that is read next, and both are complete; once the directory is synchronised it is the new one |
| CrashSafety.PrepareSafe | src/storage/InMemoryStorageBackend.cpp:101-108 | Writing and synchronising the backup files never endangers the old database |
| Integrity.DatabaseDirectory.SyncDatabase | src/storage/Integrity.cpp:67-85 | Issues one synchronisation per file of the database, then one of the directory, and stops at the first failure |
| Integrity.DatabaseDirectory.CreateBackupGuard | src/storage/Integrity.cpp:62-65 | Creates the guard exclusively, synchronises it and then the directory |
| Integrity.DatabaseDirectory.CreatePrimaryHardLinks | src/storage/Integrity.cpp:195-211 | Replaces every primary name by a link to its backup, in the order of the bucket map, index and checksums last |
| Integrity.DatabaseDirectory.DeleteBackupHardLinks | src/storage/Integrity.cpp:213-225 | Removes exactly the backup names of the database |
| Integrity.DatabaseDirectory.RevalidatePrimaryDatabase | src/storage/Integrity.cpp:87-95 | Relinks, synchronises, drops the guard, synchronises, drops the backups, in that order |
| Integrity.DatabaseDirectory.DeleteNonIndexedFiles | src/storage/Integrity.cpp:97-154 | Unlinks, in the order of the listing, exactly the entries that are neither special nor the file of an indexed bucket |
| Integrity.DatabaseDirectory.SaveBackup | src/storage/InMemoryStorageBackend.cpp:230-240 | Writes index, buckets and checksum records to backup names only |
| Integrity.DatabaseDirectory.Save | src/storage/InMemoryStorageBackend.cpp:101-117 | The loops issue exactly the calls the crash theorems are about, and from a steady directory none of them fails and the new database is steady |
| DatabaseFiles.CrashedSaveLoadsOldOrNew | src/storage/InMemoryStorageBackend.cpp:60-117 | The same as a statement about databases: after a crash anywhere in a save, parsing with checksums yields the old or the new bucket map, never a mix and never a checksum failure, and the new one once the guard is durable |
| DatabaseFiles.LoadUndoesDump | src/storage/InMemoryStorageBackend.cpp:60-99 | For every bucket map with valid ids, features free of semicolons and newlines and metadata free of newlines, and for any enumeration order of its hash maps, loading what was dumped gives back the map |
| DatabaseFiles.ImageIsDumpable | src/storage/InMemoryStorageBackend.cpp:230-268 | The files a dump writes form an image in the sense of the crash theorems, the checksum file being the records of the others |
| DatabaseFiles.ChecksumFileRoundTrip | src/storage/ChecksumValidator.cpp:41-58 | Parsing the accumulated checksum file gives one record per file, with the sum of exactly the text of that file |
| DatabaseFiles.ChecksumStream.DumpType | src/storage/StorageSerializer.h:122-127 | Although only the flags of the file stream are restored, file and checksum buffer receive the same hexadecimal text for every type |
| DatabaseFiles.ChecksumStream.DumpPolicy | src/storage/StorageSerializer.h:134-140 | A policy is written as its line, to the file and to the checksum buffer alike |
| DatabaseFiles.ChecksumStream.DumpBucket | src/storage/StorageSerializer.h:109-115 | A bucket is written as the lines of its policies; the checksum buffer stays equal to the file |
| DatabaseFiles.ChecksumStream.DumpIndex | src/storage/StorageSerializer.h:87-107 | The index is written as one line per bucket; the checksum buffer stays equal to the file |
| DatabaseFiles.ChecksumStream.Save | src/storage/ChecksumStream.cpp:65-69 | The record is the file name and the sum of exactly the bytes written to the file |
| DatabaseFiles.LoadPolicies | src/storage/BucketDeserializer.cpp:40-64 | The reading loop accepts exactly what the line grammar accepts, and yields the same policies in the same order |
| DatabaseFiles.InitBuckets | src/storage/StorageDeserializer.cpp:44-62 | The index is corrupted exactly when a line is; otherwise the first line of each id counts |
| DatabaseFiles.LoadOneBucket | src/storage/StorageDeserializer.cpp:64-79 | Loads the policies of one bucket file; when that succeeds is said by BucketLoadsIff |
| DatabaseFiles.LoadBuckets | src/storage/StorageDeserializer.cpp:64-79 | All buckets load, or the database is corrupted, whatever the order in which they are visited |
| DatabaseFiles.LoadDatabase | src/storage/InMemoryStorageBackend.cpp:60-99 | The load as a whole is the function that the theorems about loading are about |
| DatabaseFiles.BucketLoadsIff | src/storage/InMemoryStorageBackend.cpp:242-267 | A bucket loads exactly if its file is there, has the checksum of its first record in the checksum file, and parses |
| DatabaseFiles.LoadsIff | src/storage/InMemoryStorageBackend.cpp:60-99 | A load succeeds exactly if the checksum file parses, and the index and the file of every bucket in it are there, have their recorded checksums and parse |
| DatabaseFiles.LoadedDatabase | src/storage/InMemoryStorageBackend.cpp:60-99 | What is loaded are the buckets of the index, with the default policy of the first line of each id and the policies of its file; a default bucket that is not in the index is added and denies |
| DatabaseFiles.DamageIsRejected | src/storage/ChecksumValidator.cpp:64-98 | A dumped database of which the index or a bucket file is missing, or has become a text with another checksum, is reported as corrupted |
| DatabaseFiles.BadIndexLineIsRejected | src/storage/StorageDeserializer.cpp:44-62 | An index with a line that does not parse is reported as corrupted, whatever the checksums say |
| DatabaseFiles.BadPolicyLineIsRejected | src/storage/BucketDeserializer.cpp:40-64 | A bucket file with a line that does not parse is reported as corrupted, whatever the checksums say |
| DatabaseText.LinesParseIff | src/storage/BucketDeserializer.cpp:40-64 | A text of lines is read exactly if each of its lines is |
| DatabaseText.PolicyLineParsesIff | src/storage/BucketDeserializer.cpp:66-80 | A line is a policy exactly if it has three separators and a number after the third; its key are the texts between them |
| DatabaseText.HeadLineParsesIff | src/storage/StorageDeserializer.cpp:81-105 | A line of the index is read exactly if it has a valid id, a separator and a number after it |
| DatabaseText.SumLineParsesIff | src/storage/ChecksumValidator.cpp:100-120 | A checksum line is read exactly if it has a file name, a separator and a checksum, none of them empty |
| DatabaseText.NumberIsRead | src/storage/StorageDeserializer.cpp:94-105 | Any hexadecimal number below 2^31 is read as a type modulo 2^16, and any other is an error |
| DatabaseText.SumOfIs | src/storage/ChecksumValidator.cpp:41-58 | The first record of a file counts, and a file without one has the empty checksum |
| DatabaseText.HeadMapFirst | src/storage/StorageDeserializer.cpp:44-62 | Of several index lines for an id the first counts |
| DatabaseText.PolicyLineFormat | src/storage/StorageSerializer.h:134-140 | The line of a policy: features, type in upper-case hexadecimal with prefix, and metadata, separated by semicolons |
| DatabaseText.BucketRoundTrip | src/storage/BucketDeserializer.cpp:40-80 | Parsing the text of any storable policies gives them back in order |
| DatabaseText.IndexRoundTrip | src/storage/StorageDeserializer.cpp:44-116 | Parsing the index text gives back ids and default policies |
| DatabaseText.SumsRoundTrip | src/storage/ChecksumValidator.cpp:41-120 | Parsing the checksum text gives back files and sums |
| DatabaseText.LinesRoundTrip | src/storage/BucketDeserializer.cpp:40-64 | Any record format whose lines parse back, are not empty and contain no newline survives printing and reading |
| DatabaseText.ReadLines | src/storage/BucketDeserializer.cpp:40-64 | The loop over lines computes the recursive meaning of a text, error included |
| DatabaseText.ParsePolicyLineOf | src/storage/BucketDeserializer.cpp:66-80 | A policy line parses back to its policy although metadata may contain semicolons |
| DatabaseText.ParsePolicyTypeOf | src/storage/StorageDeserializer.cpp:94-105 | The hexadecimal text of any 16-bit type is read back by `stoi` and ends where the metadata starts |
| DatabaseText.HeadMapOf | src/storage/StorageDeserializer.cpp:44-62 | With distinct ids the index determines every default policy |
| PolicyKeys.GlueKeyInjective | src/common/types/PolicyKeyHelpers.cpp:29-44 | Distinct keys have distinct indices, also when features contain semicolons or digits |
| PolicyKeys.VariantsAreTheCoveringKeys | src/common/types/PolicyKeyHelpers.cpp:46-62 | The eight variants of a key are exactly the rules that cover it |
| PolicyKeys.CacheKeyInjective | src/client-common/cache/CapacityCache.cpp:94-103 | Distinct keys have distinct cache keys |
| PolicyBuckets.Filtered | src/common/types/PolicyBucket.cpp:53-69 | Eight look-ups return exactly the policies a scan of the whole bucket for equal-or-wildcard features would return, under a derived id and with the default policy inherited |
| PolicyBuckets.LookUpIsScan | src/common/types/PolicyBucket.cpp:53-69 | Indexed look-up and scan agree on every indexed bucket and every key |
| PolicyBuckets.DeleteWhere | src/common/types/PolicyBucket.cpp:81-91 | Keeps exactly the policies the predicate does not hold of |
| PolicyBuckets.ListPolicies | src/common/types/PolicyBucket.cpp:93-101 | Lists exactly once each policy that agrees with the filter in every feature for which the filter is not #, and nothing else |
| PolicyBuckets.SubBuckets | src/common/types/PolicyBucket.cpp:103-111 | Exactly the ids the bucket links to |
| PolicyBuckets.RebuildBucket | src/common/types/PolicyBucket.cpp:71-74 | Inserting the listed policies of a bucket, in any order, rebuilds it |
| PolicySearch.BareNoneMakesOrderMatter | src/storage/Storage.cpp:69-72 | A concrete database for which the final answer is ALLOW in one iteration order and NONE in another |
| PolicySearch.DenyChainDenies | src/storage/Storage.cpp:64-76 | Any chain of matching links to a matching DENY forces DENY, stored NONE policies or not |
| PolicySearch.NonRecursiveStaysHere | src/storage/Storage.cpp:64-87 | A check that is not recursive follows no link: its answer is the least of the matching policies of the bucket that are not links, or the default policy if there are none |
| PolicySearch.AcyclicIsRanked | src/storage/Storage.cpp:69-72 | The ranks the search descends along exist for every database whose matching links exist and form no cycle |
| PolicySearch.MinimalPolicy | src/storage/Storage.cpp:49-88 | The loop with its early return computes the search for the iteration order at hand |
| PolicySearch.Descend | src/storage/Storage.cpp:69-72 | A link is followed by a search of the linked bucket, which exists |
| PolicySearch.SearchBucket | src/storage/InMemoryStorageBackend.cpp:123-131 | Fails exactly for an unknown bucket, and otherwise yields its matching policies and default policy |
| LinkGraphs.AcyclicIffRanked | src/storage/Storage.cpp:49-88 | A finite link graph has no cycle if and only if ranks can be given that fall along every link |
| Storage.EraseFinishesIffAcyclic | src/storage/InMemoryStorageBackend.cpp:207-228 | On a consistent database the erase comes to an end if and only if the links that survive the filter form no cycle among the reachable buckets |
| RecursiveErase.FinishedRunIsAcyclic | src/storage/InMemoryStorageBackend.cpp:211-227 | A finished run has taken exactly the reachable buckets, and the surviving links among them form no cycle |
| RecursiveErase.TakingMakesLighter | src/storage/InMemoryStorageBackend.cpp:211-227 | Taking a bucket again lowers the sum of weights over the work list, each weight exceeding those of the surviving links together |
| RecursiveErase.WalkingDone | src/storage/InMemoryStorageBackend.cpp:211-227 | When the work list is empty, exactly the reachable buckets have been visited |
| Storage.AdminRunsKeepConsistency | src/storage/Storage.cpp:90-155 | Over every sequence of administrative operations: each link points to an existing bucket, policies are stored under their own index, and the default bucket exists and never defaults to a bare NONE |
| Storage.EffectKeepsConsistent | src/storage/Storage.cpp:90-155 | Each single operation, failing or not, keeps that |
| Storage.FailureLeavesStoreUnchanged | src/storage/Storage.cpp:90-146 | A failing insertion, bucket update, bucket deletion or erase leaves the store as it was |
| Storage.KeyDeletionIsAPrefix | src/storage/Storage.cpp:148-155 | A failing deletion of policies has deleted exactly the groups before the first non-empty group of a missing bucket |
| Storage.PolicyStore.InsertPolicies | src/storage/Storage.cpp:90-122 | Inserts all groups or nothing; what that means for each key is said by InsertionEffect |
| Storage.InsertionEffect | src/storage/Storage.cpp:90-122 | An insertion fails exactly if a bucket that is named or pointed to is missing; otherwise each key of each named bucket has the last policy inserted for it, whatever it had, or what it had if there is none; nothing else changes |
| PolicyBuckets.InsertionReplaces | src/common/types/PolicyBucket.cpp:71-74 | After an insertion a key has the last policy inserted for it, whatever it had before |
| PolicyBuckets.InsertionKeeps | src/common/types/PolicyBucket.cpp:71-74 | A key that is not inserted has what it had |
| PolicyBuckets.InsertionAddsNothingElse | src/common/types/PolicyBucket.cpp:71-74 | Every index is that of an old or of an inserted policy |
| Storage.BucketUpdateEffect | src/storage/Storage.cpp:124-135 | Setting a default policy fails exactly for a bare NONE on the default bucket or a new bucket with an invalid id; it keeps the policies of the bucket and all other buckets |
| Storage.BucketDeletionEffect | src/storage/Storage.cpp:137-146 | A deleted bucket is gone, together with exactly the policies that point to it |
| Storage.KeyDeletionEffect | src/storage/Storage.cpp:148-155 | A deletion that succeeds has deleted, in every bucket, exactly the policies of the keys that some group names for it |
| Storage.EraseEffect | src/storage/InMemoryStorageBackend.cpp:207-228 | An erase keeps a policy exactly if its bucket is not visited, or the filter names one of its features differently, where # names nothing |
| Storage.EraseAll | src/storage/InMemoryStorageBackend.cpp:207-228 | The filter of three # empties every visited bucket and changes no other |
| Storage.EraseByOneFeature | src/storage/InMemoryStorageBackend.cpp:207-228 | A filter that names one feature, with # for the other two, erases from a visited bucket exactly the policies with that feature |
| Storage.EraseOneKey | src/storage/InMemoryStorageBackend.cpp:207-228 | A filter without # erases, in every visited bucket, the policy stored under its own index and no other |
| Storage.PolicyStore.InsertGroup | src/storage/Storage.cpp:115-121 | Inserts the policies of one group one after the other into the named bucket, and changes no other |
| Storage.PolicyStore.AddOrUpdateBucket | src/storage/Storage.cpp:124-135 | Creates an empty bucket or changes a default policy; refuses a bare NONE for the default bucket and a new invalid id |
| Storage.PolicyStore.CheckId | src/common/types/PolicyBucket.cpp:122-134 | Accepts exactly alphanumeric characters, the separators and, because of `strchr`, NUL |
| Storage.PolicyStore.DeleteBucket | src/storage/Storage.cpp:137-146 | Removes the bucket and every link to it; from a consistent store a failure changes nothing |
| Storage.PolicyStore.DeleteLinking | src/storage/InMemoryStorageBackend.cpp:179-195 | Removes exactly the policies that link to the bucket, from all buckets |
| Storage.PolicyStore.DeletePolicies | src/storage/Storage.cpp:148-155 | Deletes the keys group by group until a bucket is missing |
| Storage.PolicyStore.DeleteKeys | src/storage/InMemoryStorageBackend.cpp:169-177 | Only the named bucket changes, and by its keys only |
| AsyncLogic.UseClient | src/include/cynara-client-async.h:84-96 | For every program of user code, with re-entrant calls from callbacks, arbitrary responses, disconnects and failures, that ends in finish: without monitoring, or if no monitor flush for the answer to a check throws in the program or in a callback, every accepted request has had exactly one callback; otherwise every one but those recorded as lost has |
| AsyncLogic.AsyncClient.RunToFinish | src/include/cynara-client-async.h:84-96 | No request is ever called back twice, and once finished each accepted request has been called back unless it was lost to a monitor flush |
| AsyncLogic.AsyncClient.CreateRequest | src/client-async/logic/Logic.cpp:137-164 | A new id is not pending, and `MAX_PENDING_REQUESTS` is returned only with all 65536 ids pending; nothing is accepted on failure |
| AsyncLogic.AsyncClient.TakeId | src/client-async/logic/Logic.cpp:147-160 | The least id not in use is taken, the check recorded and its request queued |
| AsyncLogic.AsyncClient.CancelPending | src/client-async/logic/Logic.cpp:183-206 | A live check gets its one call, the cancel callback; an unknown or cancelled id is refused without effect |
| AsyncLogic.AsyncClient.MarkCancelled | src/client-async/logic/Logic.cpp:191-201 | The id stays reserved after a cancel, until the service confirms it |
| AsyncLogic.AsyncClient.FinishAll | src/client-async/api/client-async-api.cpp:115-124 | Takes effect exactly when permitted, not inside an answer or cancel callback, and the monitor flush does not throw; then every live check gets its finish callback |
| AsyncLogic.AsyncClient.NotifyPending | src/client-async/logic/Logic.cpp:69-77 | Every live check is called once, and user code run by these calls cannot change the client |
| AsyncLogic.AsyncClient.OnServiceNotAvailable | src/client-async/logic/Logic.cpp:407-417 | Every live check gets its callback, and all ids become free |
| AsyncLogic.AsyncClient.PrepareRequestsToSend | src/client-async/logic/Logic.cpp:216-229 | Cancelled checks are dropped and their ids released; every other check is queued again |
| AsyncLogic.ResendQueuesEachOnce | src/client-async/logic/Logic.cpp:216-229 | What is queued is each pending check exactly once, with its own id, key and kind, and nothing else |
| AsyncLogic.AsyncClient.Connect | src/client-async/logic/Logic.cpp:365-379 | After a successful connect no cancelled check remains and the queue is exactly the pending checks; after a failed one every check has been called back |
| AsyncLogic.AsyncClient.EnsureConnection | src/client-async/logic/Logic.cpp:357-363 | A connection that is up changes nothing; otherwise the cache is emptied before dialling |
| AsyncLogic.AsyncClient.OnDisconnected | src/client-async/logic/Logic.cpp:419-424 | The cache is empty afterwards, and user code run by the callback changes nothing |
| AsyncLogic.AsyncClient.OnStatusChange | src/client-async/logic/Logic.cpp:401-405 | User code run by the status callback cannot change the client |
| AsyncLogic.AsyncClient.ProcessSimpleResponse | src/client-async/logic/Logic.cpp:282-303 | The first call made is the answer or the error code of the service; the monitor is not involved |
| AsyncLogic.AsyncClient.ProcessCancelResponse | src/client-async/logic/Logic.cpp:305-314 | Releases the id exactly if the check was cancelled, and calls nobody |
| AsyncLogic.AsyncClient.ProcessResponses | src/client-async/logic/Logic.cpp:316-343 | Every response of a batch is handled, each in the state its predecessor left, up to the first that is an error; and any stream keeps the accounts |
| AsyncLogic.AllAreAnswered | src/client-async/logic/Logic.cpp:316-343 | Any number of answers to distinct live checks in one batch, whose callbacks do nothing and with which no flush is due: exactly these answers are passed on, in their order, and exactly these checks are gone |
| AsyncLogic.ProcessAnswersAll | src/client-async/logic/Logic.cpp:166-181 | The same of a whole call of process that finds the connection up |
| AsyncLogic.AsyncClient.ReleaseRequest | src/client-async/logic/Logic.cpp:253-256 | The id is free again exactly when the check is gone; a live check released is owed its callback |
| AsyncLogic.AsyncClient.ProcessRounds | src/client-async/logic/Logic.cpp:166-181 | The rounds of completing, sending, receiving and dialling again follow one another as in the source: each is the exact change of state its outcomes call for, and only a connection that was lost and is up again is followed by another round; the accounts are kept and the client stays usable |
| AsyncLogic.AsyncClient.ProcessOut | src/client-async/logic/Logic.cpp:231-241 | Sending changes neither checks nor accounts |
| AsyncLogic.AsyncClient.ProcessIn | src/client-async/logic/Logic.cpp:345-350 | What was received is handled as a whole; a lost connection changes nothing |
| AsyncLogic.AsyncClient.CompleteConnection | src/client-async/logic/Logic.cpp:381-399 | The connection counts as complete exactly if it was or became so; a refused one has all live checks called back, and nothing else changes anything |
| AsyncAccounts.NotifyAll | src/client-async/logic/Logic.cpp:407-417 | Calling every live check and forgetting all of them leaves no request uncalled and none called twice |
| AsyncAccounts.Release | src/client-async/logic/Logic.cpp:253-256 | Releasing a live check turns its pending callback into a debt |
| AsyncAccounts.DropCancelled | src/client-async/logic/Logic.cpp:216-229 | Dropping cancelled checks loses no callback |
| SequenceContainer.SequenceContainer.constructor | src/client-async/sequence/SequenceContainer.cpp:33-35 | All 65536 numbers are free |
| SequenceContainer.SequenceContainer.Get | src/client-async/sequence/SequenceContainer.cpp:37-47 | Takes the least free number, and fails exactly when there is none |
| SequenceContainer.SequenceContainer.Release | src/client-async/sequence/SequenceContainer.cpp:49-57 | Frees the number and reports whether it was taken |
| SequenceContainer.SequenceContainer.Clear | src/client-async/sequence/SequenceContainer.cpp:59-61 | All numbers are free again |
| CapacityCache.CapacityCache.Get | src/client-common/cache/CapacityCache.cpp:37-83 | A hit moves the entry to the front, keeps its result and stores the session exactly if the plugin asks for that; an unusable one is removed, a missing plugin denies; the usage list stays a duplicate-free, recency-ordered permutation of the keys |
| CapacityCache.CapacityCache.Update | src/client-common/cache/CapacityCache.cpp:114-155 | Stores result and session as the most recently used entry, evicting the least recently used one exactly when the cache is full; never exceeds the capacity; caches nothing for types that are not cacheable |
| CapacityCache.IteratorSurvivesEviction | src/client-common/cache/CapacityCache.cpp:128-139 | The update of a key that is in a full cache keeps a valid list iterator if and only if the key is not the least recently used one |
| CapacityCache.CapacityCache.Evict | src/client-common/cache/CapacityCache.cpp:105-112 | Removes exactly the least recently used entry, from list and map |
| CapacityCache.CapacityCache.Touch | src/client-common/cache/CapacityCache.cpp:60-75 | Moving to the front keeps the other entries in order, and the map with it |
| CapacityCache.CapacityCache.Clear | src/client-common/cache/CapacityCache.cpp:85-92 | List and map are empty |
| ClientLogic.Client.EnsureConnection | src/client/logic/Logic.cpp:112-121 | A lost connection empties the cache, whether or not a new one is established; the read queue is left alone |
| ClientLogic.Client.RequestResponse | src/client/logic/Logic.cpp:123-138 | Takes the response that asking over one connection after the other yields, oldest first, whichever request it answers; every lost connection on the way empties the cache |
| ClientLogic.Client.OnDisconnected | src/client/logic/Logic.cpp:177-179 | No answer from before a disconnect remains |
| BinaryQueues.BinaryQueue.AppendUnmanaged | src/common/containers/BinaryQueue.cpp:122-143 | Appends to the flat contents; an empty buffer attaches no bucket |
| BinaryQueues.BinaryQueue.AppendCopy | src/common/containers/BinaryQueue.cpp:100-120 | Appends to the flat contents |
| BinaryQueues.BinaryQueue.AppendCopyFrom | src/common/containers/BinaryQueue.cpp:57-73 | Appends a copy as one bucket and leaves the other queue alone; also correct for a queue appended to itself |
| BinaryQueues.BinaryQueue.AppendMoveFrom | src/common/containers/BinaryQueue.cpp:75-84 | Moves all bytes and leaves the other queue empty |
| BinaryQueues.BinaryQueue.Clear | src/common/containers/BinaryQueue.cpp:94-98 | The contents are empty |
| BinaryQueues.BinaryQueue.Consume | src/common/containers/BinaryQueue.cpp:153-177 | Drops exactly the first bytes across buckets, or nothing when there are not that many |
| BinaryQueues.BinaryQueue.Flatten | src/common/containers/BinaryQueue.cpp:179-209 | Copies exactly the first bytes across buckets without running off the bucket list, or fails when there are not that many |
| BinaryQueues.BinaryQueue.FlattenConsume | src/common/containers/BinaryQueue.cpp:211-215 | Takes exactly the first bytes off, or leaves the queue unchanged |
| BinaryQueues.BinaryQueue.Empty | src/common/containers/BinaryQueue.cpp:149-151 | The stored size is zero exactly if the contents are empty |
| Streaming.Receive | src/common/protocol/ProtocolFrameSerializer.cpp:33-66 | For any list of client or admin messages within limits, any cut of their bytes into chunks, and any point at which the bytes stop: one connection delivers, once and in order, exactly the messages of the frames that have arrived as a whole, and holds the rest |
| Streaming.Drain | src/common/protocol/ProtocolClient.cpp:150-178 | Repeated extraction delivers every frame that is there as a whole and then stops |
| Streaming.EverythingArrives | src/common/protocol/ProtocolFrameSerializer.cpp:33-66 | When all bytes have arrived all messages have been delivered and nothing is left over |
| Streaming.NextFrameOnPrefix | src/common/protocol/ProtocolFrameSerializer.cpp:33-66 | A frame is extracted once its last byte has arrived and not before, and consumes exactly its declared length |
| Protocol.Connection.Extract | src/common/protocol/ProtocolClient.cpp:150-178 | The outcome of an extraction, errors included, is a function of the unread stream alone; the header flags carried from call to call are invisible |
| Protocol.Connection.DeserializeHeader | src/common/protocol/ProtocolFrameSerializer.cpp:33-66 | Takes a complete header off the queue without changing the stream; fails exactly on a wrong signature; the body test uses unsigned subtraction |
| Protocol.Connection.TakeHeader | src/common/protocol/ProtocolFrameSerializer.cpp:40-61 | The fields read are those of the header taken off |
| Protocol.FrameWriter.Write | src/common/protocol/ProtocolFrame.cpp:39-42 | The length field follows the body, modulo its 32 bits |
| Protocol.FrameWriter.Finish | src/common/protocol/ProtocolFrameSerializer.cpp:79-91 | The output queue grows by exactly one frame |
| Protocol.FrameLayout | src/common/protocol/ProtocolFrameSerializer.cpp:79-91 | A frame is the four characters CPv1, four bytes of length with the header counted, two of sequence number, each least significant byte first, and the body |
| Protocol.BadSignatureBreaks | src/common/protocol/ProtocolFrameSerializer.cpp:33-53 | Ten bytes that do not start with the signature are an error that takes four of them |
| Messages.EncodedStartsWithItsCode | src/common/protocol/ProtocolOpCode.h:34-61 | Each message starts with its operation code |
| Protocol.FrameWriter.WriteText | src/common/protocol/ProtocolSerialization.h:106-112 | Fails exactly for a text over the limit |
| Protocol.FrameWriter.WriteSetPolicies | src/common/protocol/ProtocolAdmin.cpp:442-484 | The nested loops write the encoding of the request, and fail exactly when one of its texts is too long |
| Protocol.FrameWriter.WritePolicyGroups | src/common/protocol/ProtocolAdmin.cpp:452-466 | The groups are written in the iteration order of the map, each with its 16-bit count |
| Protocol.FrameWriter.WriteKeyGroups | src/common/protocol/ProtocolAdmin.cpp:468-481 | The same for the keys to be removed |
| Messages.SetPoliciesRoundTrip | src/common/protocol/ProtocolAdmin.cpp:148-198 | For counts below 65536, texts within the limit and any iteration order of the maps: decoding gives back both maps without their empty groups, the order within each group kept, and consumes nothing beyond the request |
| Messages.SetPoliciesArrivesIffNoGroupIsEmpty | src/common/protocol/ProtocolAdmin.cpp:148-198 | The request arrives unchanged if and only if no group is empty |
| Messages.CollectGroups | src/common/protocol/ProtocolAdmin.cpp:158-175 | Pushing back element by element rebuilds a map up to its empty groups |
| Messages.MessageRoundTrip | src/common/protocol/ProtocolClient.cpp:243-365 | Every sendable message of each protocol, followed by anything, is decoded to itself, and what follows is left unread |
| Messages.BodyRoundTrip | src/common/protocol/ProtocolAdmin.cpp:350-567 | The same for the fields after the operation code |
| Wire.TextRoundTrip | src/common/protocol/ProtocolSerialization.h:106-112 | A text of at most 4096 bytes is read back, whatever follows |
| Wire.UnsignedRoundTrip | src/common/protocol/ProtocolSerialization.h:59-87 | A number that fits its width is read back from its little-endian bytes |
| Wire.PutUnsignedAt | src/common/protocol/ProtocolSerialization.h:59-93 | Numbers are written with their least significant byte first |
| Wire.Int64RoundTrip | src/common/protocol/ProtocolSerialization.h:89-93 | Signed numbers survive the two's complement |
| Wire.CountedRoundTrip | src/common/protocol/ProtocolClient.cpp:96-124 | A counted list of fewer than 65536 elements is read back if each of its elements is |
| MessageReaders.Reader.Read | src/common/protocol/ProtocolFrameHeader.cpp:39-41 | Takes exactly the first bytes of the stream or, if there are too few, throws and takes none |
| MessageReaders.Reader.ReadText | src/common/protocol/ProtocolSerialization.h:192-200 | Refuses a declared length over the limit before reading the text |
| MessageReaders.Reader.ReadEntries | src/common/protocol/ProtocolClient.cpp:96-124 | The loop reads as many entries as announced, or throws at the first that is cut off |
| MessageReaders.Reader.ReadPolicies | src/common/protocol/ProtocolAdmin.cpp:286-309 | The loop reads as many policies as announced, in order |
| MessageReaders.Reader.ReadDescriptions | src/common/protocol/ProtocolAdmin.cpp:264-275 | The loop reads as many descriptions as announced, in order |
| MessageReaders.Reader.ReadPolicyGroups | src/common/protocol/ProtocolAdmin.cpp:157-175 | The nested loops fill the map as the groups read say; a repeated id extends its list, an empty group leaves no trace |
| MessageReaders.Reader.ReadKeyGroups | src/common/protocol/ProtocolAdmin.cpp:177-190 | The same for the keys to be removed |
| MessageReaders.Reader.ReadClientRequest | src/common/protocol/ProtocolClient.cpp:63-178 | Decodes the requests of the client protocol; any other operation code is an error |
| MessageReaders.Reader.ReadClientResponse | src/common/protocol/ProtocolClient.cpp:180-241 | Decodes the responses of the client protocol; any other operation code is an error |
| MessageReaders.Reader.ReadAdminRequest | src/common/protocol/ProtocolAdmin.cpp:60-231 | Decodes the requests of the admin protocol; any other operation code is an error |
| MessageReaders.Reader.ReadAdminResponse | src/common/protocol/ProtocolAdmin.cpp:233-348 | Decodes the responses of the admin protocol; any other operation code is an error |
| Sockets.Socket.SendBuffer | src/common/sockets/Socket.cpp:172-202 | The bytes sent and the status are those the poll and send outcomes determine, and the wire only grows |
| Sockets.RoundsEnd | src/common/sockets/Socket.cpp:172-202 | The loop takes events up to the one that leaves it; the status is ConnectionLost exactly for a broken pipe, Exception exactly for a failed poll or send, AllDataSent exactly if everything was taken, and PartialDataSent otherwise; the bytes taken are the sum of what the events took |
| Sockets.Socket.Refill | src/common/sockets/Socket.cpp:244-250 | Moving the queue to the buffer, which grows when it has to, loses nothing |
| Sockets.Socket.IsDataToSend | src/common/sockets/Socket.cpp:233-235 | A negative answer means that everything is on the wire |
| Sockets.Socket.Close | src/common/sockets/Socket.cpp:53-60 | A new connection starts with nothing to send |
| Md5.Hash | src/external/md5.c:52-136 | However the input is cut, the digest is, byte by byte with the least significant one of each word first, the state after the transformation has been folded over the padded message |
| Md5.Context.Update | src/external/md5.c:66-98 | Appends to the message; complete blocks are folded in and the rest is in the buffer, within its 64 bytes, also when the bit count wraps around |
| Md5.Context.Pad | src/external/md5.c:104-120 | Appends 0x80, zeros and the bit count; which bytes these are is said by PaddedLayout |
| Md5.PaddedLayout | src/external/md5.c:104-120 | The message comes first, then 0x80, zeros, and the length in bits in eight bytes, the least significant one first |
| Md5.LittleEndianAt | src/external/md5.c:26-40 | Byte i of a number in little-endian order is the number divided by 256 to the power of i, modulo 256 |
| Md5.InitialBytes | src/external/md5.c:52-60 | The initial state, written out, are the sixteen bytes 01 23 .. 32 10 of section 3.3 of RFC 1321 |
| Md5.FoldLast | src/external/md5.c:66-98 | The transformation is applied to the blocks in their order, each of them once |
| Md5.Context.Final | src/external/md5.c:125-136 | Byte 4j+i of the digest is byte i, counted from the least significant one, of word j of the folded state; the context is wiped |
| Md5.PaddedIsWholeBlocks | src/external/md5.c:104-120 | The padded message consists of whole blocks, with as little padding as that allows |
| Md5.FoldInPieces | src/external/md5.c:66-98 | Folding in two pieces, the second starting with what the first left over, is folding at once |
| Md5.RoundFunctions | src/external/md5.c:142-144 | The optimised round functions are F and G of section 3.4 of RFC 1321 |
| CrashSafety.SaveCompletes | src/storage/InMemoryStorageBackend.cpp:101-117 | A save that is not interrupted meets no failing call and ends with the new database durable; none of its backup names is left, and no other that was not there before |
| CrashSafety.RevalidateStop | src/storage/Integrity.cpp:87-95 | Where a revalidation stands after any number of its calls: guard and backups durable, or the guard unlinked and possibly coming back, or the primaries alone durable |
| Recovery.LoadIsIdempotent | src/storage/InMemoryStorageBackend.cpp:281-288 | A load of a directory with a settled guard, after a crash or in the same boot, cut short by a crash anywhere, leaves a directory from which the next load reads the same files |
| Recovery.LoadCompletes | src/storage/Integrity.cpp:87-154 | A completed load leaves no guard, exactly the files of the loaded database and no backup name, so that no backup shares an inode with a primary when the next save truncates it |
| Recovery.FailedSaveReads | src/storage/InMemoryStorageBackend.cpp:60-117 | After a save that failed, with no crash, the next load reads the old files until the guard is created, and the new ones from then on |
| Recovery.LoadAfterFailedSave | src/storage/InMemoryStorageBackend.cpp:60-117 | A load in the same boot as a failed save is safe against a crash at each of its calls if and only if the save did not stop between creating the guard and synchronising the directory, nor between unlinking it and synchronising the directory; then it also ends with the database it read durable |
| Recovery.LoadAfterFailedLoad | src/storage/InMemoryStorageBackend.cpp:60-99 | The same for a load after a failed load: it reads the same files, and is safe if and only if the first one did not stop between unlinking the guard and synchronising the directory |
| Recovery.LoadSettlesTheGuard | src/storage/Integrity.cpp:62-95 | An undisturbed load after a save that failed between creating the guard and synchronising the directory reads the new files, makes no failing call and ends with them durable |
| Recovery.GuardInDoubtLoses | src/storage/Integrity.cpp:62-65 | The first failing case: the guard is created and not synchronised, a load has unlinked the index, and a crash loses the guard; neither database can be read |
| Recovery.UnguardInDoubtLoses | src/storage/Integrity.cpp:91-94 | The second: the guard is unlinked and that not synchronised, a load has cleaned up, and a crash brings the guard back; no database can be read |
| Recovery.SaveWithoutLoadLosesBoth | src/storage/InMemoryStorageBackend.cpp:101-117 | A second save begun after a first one stopped at any point after the creation of the guard and before its last call can, with its very first call, leave a directory from which no database is read |
| Recovery.SecondSaveIsSafeIff | src/storage/InMemoryStorageBackend.cpp:101-117 | A save after a failed save, without a load in between, is safe against crashes if and only if the first one stopped before creating the guard or made all of its calls |
| Recovery.EveryRunKeepsADatabase | src/storage/InMemoryStorageBackend.cpp:60-117 | Over any sequence of saves and loads that complete, fail after any call, or crash after any call once no doubt about the guard is left from an earlier failure, with the service restarted at any time, the directory holds a complete database, and one that the sequence accounts for |
| Integrity.DoAllIsAPrefix | src/storage/Integrity.cpp:156-185 | A failing call stops the operation: what happened is a prefix of its calls |
| Integrity.DatabaseDirectory.PostLoadCleanup | src/storage/InMemoryStorageBackend.cpp:281-288 | The loops of a load issue exactly the calls the theorems are about; from a directory with a settled guard it finishes an interrupted commit, cleans up, and leaves exactly the files of the database that was read |
| DatabaseFiles.CrashedLoadLoadsTheSame | src/storage/InMemoryStorageBackend.cpp:60-99 | After a crash anywhere in a load, whether that followed a crash or a failure that left the guard settled, loading again yields the same bucket map |
| DatabaseFiles.FailedSaveLoadsOldOrNew | src/storage/InMemoryStorageBackend.cpp:60-117 | After a failed save and no crash, loading yields the old bucket map until the guard is created, and the new one from then on |
| PolicySearch.OrderIndependentIffClear | src/storage/Storage.cpp:49-88 | On links that exist and form no cycle, whatever part of the answers is looked at, as long as it shows type and bare NONE: the answers of all buckets are independent of all hash-map iteration orders if and only if no bucket has two different answers that tie |
| PolicySearch.ResultsIndependentIff | src/storage/Storage.cpp:49-88 | Whole results, metadata included: independent if and only if in every bucket all matching DENY policies carry the same result or, where there are none, all least contributions are the same |
| PolicySearch.TypesIndependentIff | src/storage/Storage.cpp:49-88 | Types, for all buckets together: independent of the orders if and only if the two ways to break all ties give every bucket the same type |
| PolicySearch.TypeFromBucketIff | src/storage/Storage.cpp:42-88 | The type of the answer from one start bucket is independent of all orders if and only if that bucket has the same type of verdict whether all ties between a bare NONE and one with metadata are broken for the bare one or for the other, the verdicts being defined by recursion over the links without any order; no other combination of ties matters, whatever buckets are shared |
| PolicySearch.OutlineFromBucketIff | src/storage/Storage.cpp:42-88 | The same for the type together with whether a NONE is bare: independent if and only if the two verdicts of the bucket are equal |
| PolicySearch.AnswersAreVerdicts | src/storage/Storage.cpp:42-88 | A result is the answer from one start bucket for some orders if and only if it is its verdict for some way to break ties, one way for all buckets, so that a shared bucket answers the same wherever it is reached |
| PolicySearch.OutlinesIndependentIff | src/storage/Storage.cpp:49-88 | Types together with which NONE answers are bare: independent if and only if no bucket contributes NONE both bare and with metadata while nothing in it denies |
| PolicySearch.VerdictsAreReached | src/storage/Storage.cpp:49-88 | However ties are broken, there are orders that make every bucket answer its verdict, all at the same time |
| PolicySearch.AnswersBetween | src/storage/Storage.cpp:49-88 | For any order and any bucket: the answer is the one with ties broken against bare NONE unless that is a NONE with metadata; it denies only if the one with ties broken for bare NONE does, and is a bare NONE only if that one is or denies; and where that one is a NONE, it is one |
| PolicySearch.CheckIsAWinner | src/storage/Storage.cpp:49-88 | Given what the linked buckets answer, whatever it is, the answer of a bucket is among those that deny, or else the least contributions, or else the default policy |
| PolicySearch.CheckIsVerdict | src/storage/Storage.cpp:49-88 | Where nothing ties the answer is a matching DENY policy, or else the least over the matching simple policies and the answers of matching linked buckets other than a bare NONE, or else the default policy |
| PolicySearch.NoBareNoneIsClear | src/storage/Storage.cpp:49-88 | In particular types and bareness are independent of the orders whenever no bare NONE policy is stored |
| PolicySearch.AmbiguityMakesOrderMatter | src/storage/Storage.cpp:49-88 | For every database with a tie: two permutations of the policies of one bucket give it two different answers |
| PolicySearch.TiedPoliciesMakeOrderMatter | src/storage/Storage.cpp:54-61 | A concrete database for which the metadata of the answer is that of whichever policy comes first |
| PolicySearch.CheckPolicy | src/storage/Storage.cpp:42-47 | Fails exactly for an unknown start bucket; where nothing ties the result is the verdict, whole or by type and bareness; where the two ways to break all ties agree for the start bucket the type is theirs |
| Storage.PolicyStore.ErasePolicies | src/storage/InMemoryStorageBackend.cpp:207-228 | Terminates when the surviving links form no cycle, and removes exactly the filter-matching policies from exactly the buckets reachable in the initial graph, although it deletes links while it walks; fails exactly if a reachable bucket is missing, with some of the reachable ones erased |
| Storage.PolicyStore.EraseReachable | src/storage/InMemoryStorageBackend.cpp:211-227 | The work-list loop, in any order of taking buckets, erases exactly the initially reachable ones, or stops at a missing one |
| AsyncLogic.MonitoringLosesAnAnswer | src/client-async/logic/Logic.cpp:258-280 | With monitoring the promise fails: a program of two requests, the second answered two minutes after the first, so that a flush is due with it, which throws; the client is finished, the first request has had one callback and the second none |
| AsyncLogic.CachedKeyIsAnsweredAgain | src/client-async/logic/Logic.cpp:258-266 | A run after which a check is pending for a key that is cached; with a cache of one entry the update for its answer is undefined |
| AsyncLogic.AsyncClient.ProcessCheckResponse | src/client-async/logic/Logic.cpp:258-280 | An error exactly if the id is unknown, or a monitor flush is due with the answer and throws; otherwise a live check gets its answer, and a cancelled one none; when the flush throws, after the release, the answer is lost |
| AsyncLogic.AsyncClient.CheckCacheFor | src/client-async/logic/Logic.cpp:95-119 | When operations are permitted and nothing throws, the result is a hit exactly if the client is connected and the key is cached and usable; a hit is of the current connection, through both flushes that may follow |
| AsyncLogic.AsyncClient.ProcessResponse | src/client-async/logic/Logic.cpp:316-343 | A response is an error, without any effect, exactly if it belongs to no check or confirms a cancellation nobody asked for; otherwise the answer reaches its check, and where no flush is due and the callback does nothing the check is gone, the one call is made and nothing else changes |
| AsyncLogic.AsyncClient.RunScript | src/include/cynara-client-async.h:437-438 | User code of any shape runs its actions in order, each with its effect on the client, and keeps the accounts; it does nothing at all while operations are not permitted |
| AsyncLogic.AsyncClient.UpdateMonitor | src/client-async/logic/Logic.cpp:426-434 | Without monitoring nothing happens; with it the result is recorded, and the call throws exactly if that makes a flush due and looking at the connection throws |
| AsyncLogic.AsyncClient.FlushMonitor | src/client-async/logic/Logic.cpp:436-456 | The entries are dropped exactly if the connection is up or can be established; a flush never loses or repeats a callback |
| MonitorCache.Updated | src/client-common/cache/MonitorCache.cpp:35-62 | An entry is never due to be flushed by itself; with others the log is due exactly if there are at least a hundred or the last came 120 seconds after the first; without a time nothing is recorded |
| ClientLogic.Client.Check | src/client/logic/Logic.cpp:65-87 | A hit is the verdict on what is stored for the key; a miss is the verdict on the response taken, or an error. If everything cached was the answer to the latest request for its key on the present connection, it still is, if and only if nothing is stored, or nothing was left of earlier requests when the request was last sent and no monitor flush found the connection lost before the answer was stored. What the service has answered is recorded for the monitor with the status of the request. The cache update is always defined |
| ClientLogic.Client.SimpleCheck | src/client/logic/Logic.cpp:89-110 | The same without a monitor; an error code of the service is returned and leaves the key uncached, and a response of the other kind is taken and reported as no answer |
| ClientLogic.Client.CheckAllowsIff | src/client/logic/Logic.cpp:65-87 | A check that asks allows access exactly if the response taken is one of its kind with the type ALLOW and nothing throws |
| ClientLogic.Client.SimpleCheckAllowsIff | src/client/logic/Logic.cpp:89-110 | A simple check that asks returns the error code of the service, or allows exactly what an ALLOW does |
| ClientLogic.Client.CachesIff | src/client/logic/Logic.cpp:56-63 | Only answers of type ALLOW or DENY are cached, and only if the cache has any capacity |
| ClientLogic.StaleAnswerIsServed | src/client/logic/Logic.cpp:81-86 | A run of three checks, the second so late that the monitor is flushed, in which an answer received before a reconnection is served from the cache after it |
| ClientLogic.FirstCheck | src/client/logic/Logic.cpp:77-86 | A check that the service allows is recorded for the monitor as denied |
| ClientLogic.AnswerOfALostConnectionIsStored | src/client/logic/Logic.cpp:123-138 | A run without the monitor in which the answer of a lost connection is stored after the reconnection, and the second answer to the same request stays unread |
| ClientLogic.AnswerToAnotherKeyIsServed | src/client/logic/Logic.cpp:123-138 | The run goes on: a check of another key, which the service denies, is answered with the unread answer and allowed; the denial stays unread in turn |
| ClientLogic.Client.TakenIsOwnIff | src/client/logic/Logic.cpp:123-138 | The response a call takes answers the request of that call, on the connection then up, if and only if nothing was unread, in fragments or outstanding when the request was last sent |
| ClientLogic.Client.PerformAll | src/client/logic/Logic.cpp:65-110 | Over any run of calls in which neither sending nor reading raises an error, the service never closes a connection after it began to answer on it, and no flush finds the connection lost, everything cached is the answer to the latest request for its key on the present connection |
| SocketClients.FirstInFirstOut | src/common/sockets/SocketClient.cpp:57-79 | What is taken is always the oldest there is, over everything that was left unread or unanswered before; nothing is lost or repeated, except that decoding from a fragment on may take what follows it along |
| SocketClients.OwnAnswerIff | src/common/sockets/SocketClient.cpp:32-79 | Over any number of attempts and connections, fragments left by lost connections included: the response taken answers the request on the connection then up if and only if nothing was left when it was last sent; then nothing is left afterwards, and if it answers another request as much is left as before |
| SocketClients.IdleAtLastSendIff | src/common/sockets/SocketClient.cpp:32-79 | Which is the case if and only if nothing read was left before the call, no attempt that lost its connection read anything on it, and no request was outstanding, or only on a connection that was lost |
| SocketClients.DialledKeeps | src/common/sockets/SocketClient.cpp:38-51 | A new connection waits for no answer and keeps everything that was read, so that it starts with nothing left if and only if all that had been read was taken |
| SocketClients.TearEnds | src/common/protocol/ProtocolFrameSerializer.cpp:33-61 | A fragment does not spoil the connection for ever: a call that throws over it and over the answer that follows it can leave nothing behind |
| SocketClients.OrderlyStaysIdle | src/common/sockets/SocketClient.cpp:57-79 | With no errors, and a service that closes a connection only before it begins to answer on it, nothing is ever left |
| SocketClients.SocketClient.AskCynaraServer | src/common/sockets/SocketClient.cpp:57-79 | The sending and reading loop takes the oldest response there is once it has read successfully, and leaves the others |
| ClientLogic.Client.LookUp | src/client-common/cache/CapacityCache.cpp:37-83 | With the built-in interpreter the cache is missed exactly for keys it does not hold, and a hit is the verdict on the response stored for the key |
| ClientLogic.Client.Store | src/client-common/cache/CapacityCache.cpp:114-155 | The response is cached exactly if the cache has room for anything and the type is known; no other key is added |
| ClientLogic.Client.UpdateMonitor | src/client/logic/Logic.cpp:181-207 | A due flush that finds the connection lost empties the cache, any other leaves it alone; the entries are dropped exactly if a due flush has sent them |
| Streaming.DeclaredLengthIsNotSkipped | src/common/protocol/ProtocolClient.cpp:150-178 | Whatever length a frame declares, once decoding starts with the body there exactly the body is consumed, so the frame takes its declared length if and only if that is the length it has |
| Sockets.Socket.SendToServer | src/common/sockets/Socket.cpp:237-253 | Under arbitrary partial sends and on every path, exceptional ones included: bytes on the wire, unsent buffer and queue together are everything handed over, in order, without loss or duplication; when all is reported sent, all of it is on the wire, and `isDataToSend` then answers true if and only if anything was moved to the buffer by this call |

## Left out

- The service daemon, agents, plugins and their routing: responses are arbitrary values.
- Logging, exception classes, visitors, the C API wrappers and configuration: thin glue.
- Smack labels, `flock`, eventfd, plugin loading, and the connection set-up of the socket: only abstract outcomes of system calls appear.
- The receiving side of the socket as bytes: it only appends what it reads to a byte queue; the synchronous client is modelled with the responses in that queue.
- The agent and monitor protocols: their messages would only add easy members of the kinds shown.
- Memory exhaustion: no allocation fails in the model.
- Md5.Hash: the 64 steps of the block transformation are not modelled; the theorem holds for every transformation.
- Messages.Body: the encoders other than that of SetPolicies are modelled on values, as the bytes they write; update in place of the frame is modelled for SetPolicies only.
- Messages.MessageRoundTrip: a text is a sequence of characters below 256, as `std::string` holds them.
- Protocol.Connection.DeserializeHeader: the header flags survive a reconnect in the code; the model speaks of one connection that starts with them reset.
- AsyncLogic.AsyncClient.UpdateCache: which entries a full cache evicts is arbitrary here, and every update is taken as defined, although `AsyncLogic.CachedKeyIsAnsweredAgain` shows one that is not; the cache itself is modelled in CapacityCache.
- AsyncLogic.AsyncClient.ProcessRounds: the rounds of one call are a finite list of arbitrary outcomes, so that a connection that never settles is not followed for ever.
- Sockets.Socket.SendBuffer: an unending sequence of `EAGAIN` is cut off as if the socket stopped being writable.
- CrashSafety.SaveIsAtomic: bucket ids contain none of the characters NUL, slash and tilde, as needed for distinct file names.
- DatabaseFiles.LoadUndoesDump: the checksum function is arbitrary, apart from giving a non-empty text without newlines.
- Integrity.DoAllIsAPrefix: writes to a stream do not throw in the code, so a save goes on after a failed write, to create a guard for damaged backups; in the model a write succeeds or the operation stops there.
- Recovery.LoadCompletes: a database without the default bucket, which no save writes, is not covered; a load adds that bucket before it revalidates, and with a guard in place fails to link its file.
- Recovery.EveryRunKeepsADatabase: a crash while the guard is in doubt from an earlier failure, before the directory has been synchronised, is not an event of a run; `Recovery.LoadAfterFailedSave` and `Recovery.LoadAfterFailedLoad` show that it can lose the database.
- PolicySearch.MinimalPolicy: a cycle of matching links makes the search recurse without end; the model asks for ranks, which exist exactly if there is no cycle.
- ClientLogic.Client.Check: plugins other than the built-in interpreter are not part of this model of the client, nor are errors raised while `isConnected` or `connect` looks at the socket outside a flush.
- SocketClients.OwnAnswerIff: the service answers the requests of one connection in their order, each once and by a response of its kind; what decoding makes of a fragment, and where it stops, is arbitrary, and may be more than the bytes allow.
- MonitorCache.Updated: the entries of the monitor are modelled on values that the clients reassign, without update in place; nanoseconds are left out.
- AsyncLogic.AsyncClient.FinishAll: the requests for the remaining monitor entries, queued one by one before the client is destroyed, are not modelled, only whether sending them throws.
- Integrity.DatabaseDirectory.SyncElement: a failing `fsync` or `close` ends the operation like a failing `open`.
