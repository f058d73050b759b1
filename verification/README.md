# Mycellium: a verified model of its stateful core

Mycellium is a messenger whose devices keep their own state and whose registry only publishes
signed records. This project models the parts that carry guarantees over whole runs and proves
those guarantees in Dafny.

| file | what it models |
|---|---|
| `Publish.dfy` | concurrent publication of public records: content-addressed files, freshness check, compare-and-swap of a pointer, deletion of the replaced file; one program counter per request, any interleaving, any request may die |
| `PublishOutcomes.dfy` | what a finished request's outcome means, and how a request that nobody interferes with ends |
| `RecoverySlot.dfy` | concurrent `put_recovery` on one account |
| `RegistryTables.dfy`, `RegistryStore.dfy` | login tokens, sessions with a reverse index, rate buckets, their expiry tables, bounded cleanup |
| `RegistryRuns.dfy` | runs of the login and session service: the transactions of any number of requests and of cleanups, interleaved |
| `ExpiryKeys.dfy` | the text keys of the expiry tables and their order |
| `Storage.dfy`, `FileStore.dfy` | mutation lists, the write-ahead-journalled store under interruptions, the overlay transaction |
| `Outbox.dfy` | the outbox saved by difference, its state machine, the network-free flush pass |
| `ClientOutbox.dfy` | the flush of the shared outbox over a network, cancellation by id prefix |
| `Delivery.dfy` | park, send, commit, acknowledge, finalise between devices over a hostile network with crashes |
| `Ratchet.dfy`, `Groups.dfy` | the sender-key ratchet with its bounded bank of skipped keys; a member's group state and its snapshot |
| `History.dfy` | segmented transcripts as flat lists |
| `PeerPins.dfy` | anti-rollback pins and the signed-record book |
| `Envelopes.dfy` | padding arithmetic, X3DH agreement, sealing and opening |

Objects that the source updates in place are classes (`Store`, `FileStore`, `FileTransaction`,
`SenderKey`, `ReceiverKey`, `Group`, `PeerBook`, `KeyValueStore`); their methods are proved equal to
functions on values, or to predicates relating old and new state, and the theorems about whole runs
are lemmas about those. Cryptography, hashing and encoding are parameters with stated laws, or
injective constructors.

## Where a broader claim is false

- The publication pointer can dangle for an account whose recovery secret was not stored before its
  first upload: an upload refused for want of the secret deletes its content-addressed file after a
  second upload of the same bytes was installed. `Publish.SafeIffRecoveryStoredFirst` shows this is
  exactly the condition.
- The outbox documentation (`crates/mycellium-engine/src/outbox.rs:8-10`) says a final entry has its
  ciphertext erased; the client's `cancel_outbox` keeps it. `ClientOutbox.CancelKeepsCiphertext`: the
  claim survives a cancellation exactly when it cancels nothing.
- Final states are absorbing for attempts, passes, readdressing and retry-now
  (`Outbox.FinalEntriesAreLeftAlone`), but `set_status` has no pending guard: it keeps them exactly when
  no final entry of the id has another status (`Outbox.MarkKeepsFinalStatesIff`), and
  `ClientOutbox.CancelThenMarkDelivered` is a run from cancelled to delivered.
- A cleanup that overtakes a request, reading a later clock than the request did, can show: exactly when
  it took the token, session or bucket that was unexpired at the request's time
  (`RegistryRuns.OvertakenTakeIff`, `OvertakenLookIff`, `OvertakenBumpIff`); `OvertakenRunDiffers` is such
  a run.
- Finished uploads can leave a file behind: when two accounts hold the same recovery wallet, the second
  one's upload is refused for its taken user id and its file stays
  (`Publish.TakenUserIdAbandonsFile`, `Publish.AbandonedFileStays`). Distinct recovery wallets are exactly
  the condition (`Publish.NothingLeftIff`).
- A deleted key can come back from the journalled store: when only the last directory sync of a batch
  failed, the process goes on, deletes a key the batch wrote, and crashes before anything syncs the
  directory (`FileStore.DeletedKeyComesBack`). A run survives every crash exactly when no such delete is
  accepted in it (`FileStore.SurvivesIffNothingResurrected`).
- Outbox ids are digests of the sealed item, and the fan-out of a group message seals once, so parking
  the same ciphertext for a second member is refused while the first entry exists
  (`Delivery.SecondRecipientIsRefused`).
- Padding round-trips exactly for payloads below 2^32 bytes, because the length prefix is a `u32`
  (`Envelopes.PaddingRoundTrips`).
- Pin value 0 means "unset", so a record published with sequence number 0 does not guard its
  successors (`PeerPins.GuardsIffVersioned`, `PeerPins.UnversionedRollsBack`).
- A refused put does not always leave the pins alone: into a peer book that does not decode, a record
  that passes every other check advances them first. `PeerPins.RefusedPutKeepsPinsIff` gives the exact
  condition and `PeerPins.CorruptBookAdvancesPins` the case of any first record.

## Model

| member | source | states |
|---|---|---|
| Publish.PointerAlwaysResolves | crates/mycellium-registry/src/http.rs:421-462 | in every interleaving of uploads, reads, deaths and recovery uploads, for an account whose recovery secret is stored: the current reference resolves to a present file, the published record only gets fresher, no upload and no read reports missing bytes |
| PublishOutcomes.OutcomesMean | crates/mycellium-registry/src/http.rs:437-460 | in every run, for an account with its secret stored: an upload that reports success was the current record after it arrived, one that reports a refusal is signed by another wallet or beaten by the current record, a read returns nothing or a record that was current |
| PublishOutcomes.UploadAlone | crates/mycellium-registry/src/http.rs:421-462 | an upload that nobody interferes with finishes within six steps: published unless signed by another wallet, beaten or its user id taken, with its predecessor's file gone and a refused file removed |
| PublishOutcomes.ReadAlone | crates/mycellium-registry/src/http.rs:510-529 | a read that nobody interferes with returns the current record within three steps |
| PublishOutcomes.DanglingIsReported | crates/mycellium-registry/src/http.rs:521-527 | a read of a reference that has lost its file reports the missing bytes within four steps |
| Publish.SafeIffRecoveryStoredFirst | crates/mycellium-registry/src/http.rs:724-737 | an account is safe in every run exactly when its recovery secret is stored before the first upload |
| Publish.DanglesWithoutRecovery | crates/mycellium-registry/src/http.rs:437-443 | a concrete run after which the current reference has lost its file, for any account without a stored secret |
| Publish.SafeWhenStoredBeforeUploads | crates/mycellium-registry/src/http.rs:718-737 | an account whose secret is stored during the run, before its first upload arrives, never has a dangling reference |
| Publish.AdvanceKeeps | crates/mycellium-registry/src/http.rs:510-543 | each atomic step keeps "an in-flight upload's file is present or can no longer be installed", moves the pointer only forward and deletes only files that can no longer become current |
| Publish.SwapKeeps | crates/mycellium-registry/src/redb_store.rs:422-491 | the compare-and-swap installs an upload only while its file is present and only over an older record |
| Publish.ReadsAreNotStale | crates/mycellium-registry/src/http.rs:510-529 | a read begun while a record is published never fails and never returns an older record |
| Publish.UserIndexIsExact | crates/mycellium-registry/src/redb_store.rs:444-488 | the user index stays the exact inverse of the published records, so no user id is published under two accounts |
| Publish.NoFileIsLeftBehind | crates/mycellium-registry/src/http.rs:437-456 | unless a request dies, every file is current, or an unfinished upload still installs or deletes it, or it was left by an upload whose user id is taken |
| Publish.DistinctSecretsLeaveNothing | crates/mycellium-registry/src/http.rs:437-456 | once all requests of a run without deaths have finished, only current files remain if no two accounts hold the same recovery wallet by then |
| Publish.NothingLeftIff | crates/mycellium-registry/src/redb_store.rs:448-460 | finished requests always leave only current files exactly when no two accounts hold the same recovery wallet |
| Publish.TakenUserIdAbandonsFile | crates/mycellium-registry/src/redb_store.rs:448-460 | for any two accounts with one recovery wallet, a run in which every request has finished and the second one's file remains although it is not current |
| Publish.AbandonedFileStays | crates/mycellium-registry/src/http.rs:445-456 | a file that is not current and that no unfinished request would install or delete stays until its account uploads the same bytes again |
| RecoverySlot.FirstSecretWins | crates/mycellium-registry/src/http.rs:341-395 | under any interleaving the slot is written once, its file never disappears, every success names the same sealed secret, no request reports missing bytes |
| RecoverySlot.PutAlone | crates/mycellium-registry/src/http.rs:341-395 | a request that nobody interferes with finishes within four steps: it fills an empty slot, finds its own secret or is refused, and leaves its file only when that is the stored one |
| RecoverySlot.NoSealedFileIsLeftBehind | crates/mycellium-registry/src/http.rs:368-381 | every sealed file is the installed one or belongs to a request that is unfinished or died |
| RegistryTables.PutTokenAgreesIff | crates/mycellium-registry/src/redb_store.rs:193-220 | storing a token keeps token and expiry tables one-to-one exactly when its hash is new or keeps its expiry |
| RegistryTables.ReplaceSessionAgreesIff | crates/mycellium-registry/src/redb_store.rs:512-566 | replacing a session keeps sessions, reverse index and expiry rows one-to-one exactly when the new hash is not another account's |
| RegistryTables.TakeTokenAgrees | crates/mycellium-registry/src/redb_store.rs:222-248 | taking a token keeps the tables in agreement |
| RegistryTables.BumpRateAgrees | crates/mycellium-registry/src/redb_store.rs:600-654 | counting a request keeps bucket and expiry tables in agreement |
| RegistryTables.PurgeAgrees | crates/mycellium-registry/src/redb_store.rs:656-815 | cleanup of any chosen rows keeps every table in agreement and removes no token but those the rows name |
| RegistryTables.OneUsableTokenPerAccount | crates/mycellium-registry/src/lib.rs:623-632 | in agreeing tables two hashes that resolve to one account, at any times, are equal |
| RegistryTables.LatestSessionOnly | crates/mycellium-registry/src/lib.rs:599-632 | a new session is usable exactly until now plus its time to live, saturating, ends the account's earlier one, and no other account notices |
| RegistryTables.FoundSessionHasHash | crates/mycellium-registry/src/redb_store.rs:568-598 | a hash never finds a session of another hash, even through a stale index entry |
| RegistryTables.IssuedTokenIsTakenOnce | crates/mycellium-registry/src/lib.rs:580-586 | a stored token is taken successfully exactly before it expires, comes back as stored, and never a second time |
| RegistryTables.WindowCountsRequests | crates/mycellium-registry/src/redb_store.rs:600-654 | a rate window counts exactly the requests made in it, saturating, and keeps the end its first request set |
| RegistryTables.BumpAnswersStored | crates/mycellium-registry/src/redb_store.rs:600-654 | a request is refused exactly without a key or a window, and is otherwise told the bucket that is then stored |
| RegistryTables.WindowAnswersCount | crates/mycellium-registry/src/http.rs:771-785 | the last request of a window is told how many there were, so a limit refuses exactly those beyond it |
| RegistryRuns.StepAgrees | crates/mycellium-registry/src/lib.rs:549-632 | every transaction of the service keeps the agreement when drawn hashes are new |
| RegistryRuns.RunAgrees | crates/mycellium-registry/src/redb_store.rs:193-815 | every state of every interleaving of request transactions and cleanups keeps sessions, reverse index, expiry rows, tokens and buckets in one-to-one agreement |
| RegistryRuns.OneUsableTokenEver | crates/mycellium-registry/src/lib.rs:599-632 | in every run from an empty store an account never has two usable session tokens |
| RegistryRuns.OneUsableTokenAfterBackfill | crates/mycellium-registry/src/redb_store.rs:78-186 | the same from a store just given its expiry tables, when its reverse index was exact |
| RegistryRuns.PurgesAreInvisible | crates/mycellium-registry/src/redb_store.rs:656-815 | cleanups inserted anywhere, also between the two transactions of a request, change no issued expiry, login result, session lookup or rate count of a request not older than the cleanup |
| RegistryRuns.OvertakenTakeIff | crates/mycellium-registry/src/lib.rs:580-586 | a cleanup changes a confirmation exactly when it took the token unexpired at the confirmation's time |
| RegistryRuns.OvertakenLookIff | crates/mycellium-registry/src/lib.rs:623-632 | a cleanup changes a session lookup exactly when it took the session unexpired at the lookup's time |
| RegistryRuns.OvertakenBumpIff | crates/mycellium-registry/src/redb_store.rs:600-654 | a cleanup changes a rate count exactly when it took the bucket unexpired at the request's time |
| RegistryRuns.RunCountsRequests | crates/mycellium-registry/src/redb_store.rs:617-630 | in every run each stored bucket has counted at least one request |
| RegistryRuns.OvertakenRunDiffers | crates/mycellium-registry/src/lib.rs:580-597 | a run in which a cleanup at a later clock turns a confirmation of an unexpired token into a refusal |
| RegistryRuns.SameStep | crates/mycellium-registry/src/lib.rs:549-632 | a transaction depends only on the unexpired entries: equal live parts give equal outputs and equal live parts |
| RegistryRuns.TakeMeans | crates/mycellium-registry/src/redb_store.rs:222-248 | taking is decided by the unexpired token of the hash, always spends it and touches nothing else |
| RegistryRuns.RequestIssues | crates/mycellium-registry/src/lib.rs:549-577 | a request stores a token of its own login with the account bound then, expiring after its time to live, saturating |
| RegistryRuns.LoginExchange | crates/mycellium-registry/src/lib.rs:549-597 | a token requested for a login and confirmed in time gives that login's account, binding the new one exactly when it had none |
| RegistryRuns.ConfirmationsAreConsistent | crates/mycellium-registry/src/lib.rs:549-597 | in every interleaving of the transactions of requests and confirmations, all successful confirmations of a login return the account it is bound to, exactly the first to complete for an unbound login reports a creation, and no hash succeeds twice |
| RegistryRuns.EveryBindingIsReported | crates/mycellium-registry/src/redb_store.rs:273-352 | a login bound during a run was bound by a confirmation that reported the creation |
| RegistryRuns.RacingConfirmations | crates/mycellium-registry/src/lib.rs:580-597 | two tokens of one unbound login taken before either is bound: the second binding returns the first one's account and no creation |
| RegistryStore.Store.Open | crates/mycellium-registry/src/redb_store.rs:44-186 | opening a database without expiry tables leaves them in one-to-one agreement with what is stored |
| RegistryStore.Store.Backfill | crates/mycellium-registry/src/redb_store.rs:78-186 | the first open adds one row per entry; later opens change nothing |
| RegistryStore.Store.PutLoginToken | crates/mycellium-registry/src/redb_store.rs:193-220 | the transaction is the table function the run theorems are about |
| RegistryStore.Store.TakeLoginToken | crates/mycellium-registry/src/redb_store.rs:222-248 | the transaction is the table function, whether or not the token exists |
| RegistryStore.Store.GetOrCreateAccount | crates/mycellium-registry/src/redb_store.rs:273-352 | a bound login keeps its account, an unbound one is bound to the new id and reports a creation |
| RegistryStore.Store.Replace | crates/mycellium-registry/src/redb_store.rs:512-566 | the in-place update of three tables is the table function |
| RegistryStore.Store.BumpRateLimit | crates/mycellium-registry/src/redb_store.rs:600-654 | saturating count inside the window, a new window of one outside it, refusal of empty keys and non-positive windows |
| RegistryStore.Store.Scan | crates/mycellium-registry/src/redb_store.rs:669-687 | takes due rows only, in table order, at most as many as there is room for, and stops short only when nothing due is left |
| RegistryStore.Store.PurgeExpired | crates/mycellium-registry/src/redb_store.rs:656-815 | removes exactly the entries of the due rows taken, at most `limit` of them, tokens before sessions before rates, keeping agreement; fewer than `limit` means no due row is left in any table |
| RegistryStore.Store.Maintain | crates/mycellium-registry/src/bin/mycellium-registry.rs:44-50 | the repeat-until-short loop terminates with nothing due left and every live entry untouched |
| ExpiryKeys.KeysSortByTimeThenSubject | crates/mycellium-registry/src/redb_store.rs:818-820 | text order of keys is order by timestamp, then subject, for every subject |
| ExpiryKeys.KeyParsesBack | crates/mycellium-registry/src/redb_store.rs:818-839 | timestamp (clamped at 0) and non-empty subject parse back from the key, colons included |
| Storage.LastMutationDecides | crates/mycellium-core/src/storage.rs:36-44 | after a mutation list each key holds what its last mutation says, unmentioned keys are unchanged |
| Storage.ReplayAfterPrefix | crates/mycellium-storage/src/filestore.rs:165-176 | applying any prefix and then the whole list equals applying the whole list |
| FileStore.FinishPreserves | crates/mycellium-storage/src/filestore.rs:142-185 | however far a replay gets, the recoverable contents are the same; a completed one has them on disk with no journal |
| FileStore.BatchIsAtomic | crates/mycellium-storage/src/filestore.rs:282-292 | an interrupted batch takes effect wholly or not at all, wholly exactly when its journal was written |
| FileStore.RefinesPlainMap | crates/mycellium-storage/src/filestore.rs:86-185 | through every sequence of batches, writes, reopens, I/O errors in any of them and crashes that resurrects no deleted key, the store refines a plain map updated atomically |
| FileStore.SurvivesIffNothingResurrected | crates/mycellium-storage/src/filestore.rs:157-185 | whichever way a crash falls after any step of a run, recovery yields the plain map, exactly when no delete is accepted of a key that a journal with an unsynced unlink wrote |
| FileStore.DeletedKeyComesBack | crates/mycellium-storage/src/filestore.rs:178-185 | a run in which a failed directory sync, an accepted delete and a crash bring a deleted key back |
| FileStore.FileStore.FinishTransaction | crates/mycellium-storage/src/filestore.rs:178-185 | unlink, then sync; a failed sync leaves the journal gone for the process but not durably |
| FileStore.UninterruptedReopenRestores | crates/mycellium-storage/src/filestore.rs:165-185 | after any such run one uninterrupted reopen puts the imagined map on disk and reports success |
| FileStore.FileStore.Open | crates/mycellium-storage/src/filestore.rs:40-70 | opening replays a journal left behind |
| FileStore.FileStore.Apply | crates/mycellium-storage/src/filestore.rs:142-163 | the loop applies the prefix the interruption allows |
| FileStore.FileStore.RecoverTransaction | crates/mycellium-storage/src/filestore.rs:165-176 | succeeds exactly when there is no journal or its mutations, unlink and sync all succeed, and then the recoverable contents are on disk |
| FileStore.FileStore.Get | crates/mycellium-storage/src/filestore.rs:257-269 | reads are refused while a journal is present |
| FileStore.FileStore.Mutate | crates/mycellium-storage/src/filestore.rs:271-280 | succeeds exactly when no journal is present and the disk operation succeeds, and then has written or removed that key; otherwise nothing changed |
| FileStore.FileStore.ApplyBatch | crates/mycellium-storage/src/filestore.rs:282-292 | succeeds exactly when no journal is present and journal, mutations, unlink and sync all succeed, and then every mutation is applied; refused exactly while a journal is present |
| FileStore.CommittedChangesAreTheOverlay | crates/mycellium-storage/src/filestore.rs:198-216 | the mutations of a commit, in whatever order, turn the stored map into the staged view |
| FileStore.FileTransaction.Get | crates/mycellium-storage/src/filestore.rs:222-227 | a transaction reads its staged view |
| FileStore.FileTransaction.ApplyBatch | crates/mycellium-storage/src/filestore.rs:239-251 | staging a batch acts on the view of every underlying store as the batch would |
| FileStore.FileTransaction.Commit | crates/mycellium-storage/src/filestore.rs:198-216 | all staged changes or none survive an interruption, all exactly when the journal was written; success leaves the staged view on disk |
| Outbox.EntryKeysAreDistinct | crates/mycellium-engine/src/outbox.rs:24-28 | entry keys are injective and differ from the index keys |
| Outbox.HoldsMeansLoads | crates/mycellium-engine/src/outbox.rs:155-187 | a store that holds a list loads exactly that list |
| Outbox.SavedHolds | crates/mycellium-engine/src/outbox.rs:189-224 | writing changed entries, deleting dropped ones and replacing the index leaves exactly the new list and no stray entry key |
| Outbox.Save | crates/mycellium-engine/src/outbox.rs:189-224 | after a save the store lists exactly the given entries; duplicate ids are refused without a change; other keys are untouched |
| Outbox.Enqueue | crates/mycellium-engine/src/outbox.rs:292-329 | appends a pending entry, or accepts a known id only for the same user and slot without a change |
| Outbox.SetStatus | crates/mycellium-engine/src/outbox.rs:341-362 | exactly the matching entry changes, whatever its status was |
| Outbox.MakeAllDue | crates/mycellium-engine/src/outbox.rs:389-401 | exactly the pending entries become due, at any time asked |
| Outbox.RecordAttempt | crates/mycellium-engine/src/outbox.rs:403-442 | exactly the one pending entry changes, in place: acknowledged it is delivered and erased, otherwise it has one more attempt and waits its delay, both saturating; found says whether there was one |
| Outbox.ReaddressPending | crates/mycellium-engine/src/outbox.rs:480-507 | exactly the one pending entry changes, in place: it holds the new id, slot and ciphertext, no attempts, due at once; an id in use elsewhere is refused without a change |
| Outbox.FinalEntriesAreLeftAlone | crates/mycellium-engine/src/outbox.rs:403-507 | attempts, passes, readdressing and retry-now leave final entries alone, and "final means erased" is kept |
| Outbox.MarkMeans | crates/mycellium-engine/src/outbox.rs:346-356 | a mark sets the status of exactly its entry, and a final one erases ciphertext and plaintext |
| Outbox.MarkOverridesIff | crates/mycellium-engine/src/outbox.rs:341-362 | a mark changes a final state exactly when it names that entry and another status |
| Outbox.MarkKeepsFinalStatesIff | crates/mycellium-engine/src/outbox.rs:341-386 | a mark keeps all final states of the list exactly when no final entry of that id has another status |
| Outbox.RetryDelayBounds | crates/mycellium-engine/src/outbox.rs:146-152 | delays start at 5 seconds plus the id's jitter, double from attempt to attempt, lie in 5..3600 seconds and are the full hour exactly from attempt 11 on |
| Outbox.FlushPass | crates/mycellium-engine/src/outbox.rs:107-143 | every due entry is delivered, failed or backed off field by field as the attempt says, others are untouched, and pending before = delivered + newly failed + still pending |
| ClientOutbox.FlushShared | crates/mycellium-client/src/runtime.rs:503-634 | for any network behaviour and device replacement nothing pending is lost, even when the flush stops on an id collision; entries not tried are untouched and in place; a due one is delivered only on its current device's acknowledgement, failed exactly when it cannot be sent, and otherwise waits, on a replaced device under the resealed item, its id and the new slot; a completed flush tried every due one and reports an exact waiting count |
| ClientOutbox.Process | crates/mycellium-client/src/runtime.rs:527-628 | one entry ends delivered, failed or waiting as its route says, field by field, and no other entry changes |
| ClientOutbox.CancelOutbox | crates/mycellium-client/src/lib.rs:1199-1246 | `all` cancels every pending entry and counts them, a prefix the one pending entry it names; every other prefix is refused without a change |
| ClientOutbox.CancelKeepsCiphertext | crates/mycellium-client/src/lib.rs:1208-1241 | cancelled entries change in nothing but their status and due time, so "final means erased" holds of the list afterwards exactly when nothing was cancelled |
| ClientOutbox.CancelThenMarkDelivered | crates/mycellium-engine/src/outbox.rs:341-370 | a run in which an entry cancelled by the client is marked delivered afterwards |
| Delivery.DeliveredMeansRecorded | crates/mycellium-client/src/runtime.rs:212-305 | in every run with loss, duplication, reordering, injection and crashes: a delivered entry means its device recorded that id and payload, genuine acknowledgements exist only after the record, and effects are applied once, exactly when recorded |
| Delivery.ExchangeDelivers | crates/mycellium-client/src/runtime.rs:152-305 | a pending entry sent, taken up, committed and acknowledged ends delivered, its id recorded and its effect applied once, from any reachable state in which the device had not accepted it |
| Delivery.FirstPushIsAccepted | crates/mycellium-client/src/runtime.rs:212-305 | a first push to a device at rest is staged, recorded with its one effect and its replies, and acknowledged |
| Delivery.ParkAllParks | crates/mycellium-client/src/runtime.rs:247-276 | every reply of a commit is parked pending for its slot unless its id is in use |
| Delivery.RefusedPushLeavesNothing | crates/mycellium-client/src/runtime.rs:278-291 | an item the application refuses leaves no record, effect, reply or acknowledgement |
| Delivery.CrashAroundCommit | crates/mycellium-client/src/runtime.rs:292-304 | a crash before the commit leaves no trace of a push, and after it the next push is answered from the record |
| Delivery.LateAckOnClosedEntry | crates/mycellium-client/src/runtime.rs:395-450 | an acknowledgement after an entry was closed leaves it closed through an attempt and delivers it through an explicit mark |
| Delivery.ReaddressedEntryIsPending | crates/mycellium-client/src/runtime.rs:670-699 | a moved entry leaves its old id and is pending for the new device under the resealed item, and no other entry changes |
| Delivery.ReaddressRefused | crates/mycellium-engine/src/outbox.rs:480-499 | an entry that is not pending, or whose new id is in use, is not moved |
| Delivery.AcceptanceIsPermanent | crates/mycellium-engine/src/inbox.rs:67-94 | an acceptance record is never replaced, so delivered entries stay backed |
| Delivery.InboxStep | crates/mycellium-engine/src/inbox.rs:52-94 | records and effects grow together by the staged item, and a device acknowledges only what it has recorded |
| Delivery.DeliveredStep | crates/mycellium-client/src/runtime.rs:395-450 | an entry becomes delivered only by an acknowledgement of its own id and item from its own slot |
| Delivery.NextKeeps | crates/mycellium-client/src/runtime.rs:152-172 | every step keeps the protocol invariant and takes no acceptance back |
| Delivery.RetryAfterLostAck | crates/mycellium-client/src/runtime.rs:395-414 | re-sending a pending item to a device that already recorded it delivers the entry and changes nothing on the device |
| Delivery.NoCollisions | crates/mycellium-client/src/runtime.rs:39-43 | with digests as ids the collision branch is never taken in a reachable world |
| Delivery.SecondRecipientIsRefused | crates/mycellium-engine/src/outbox.rs:306-314 | parking one sealed item for a second device adds nothing |
| Ratchet.SenderKey.Encrypt | crates/mycellium-core/src/group.rs:90-104 | position n is sealed under the n-th derived key and the chain moves by exactly one |
| Ratchet.ReceiverKey.BankSkipped | crates/mycellium-core/src/group.rs:180-186 | the eviction loop drops the oldest entries and banks the new one |
| Ratchet.ReceiverKey.MessageKey | crates/mycellium-core/src/group.rs:154-178 | the search, skip and derive loops are the transition the theorems are about, in result and state |
| Ratchet.ReceiverKey.Decrypt | crates/mycellium-core/src/group.rs:134-152 | work on a clone commits only on success, in result and state |
| Ratchet.SkipOneKeeps | crates/mycellium-core/src/group.rs:172-186 | skipping keeps the bank increasing, correct and bounded, and evicts no unconsumed key of the last 1024 positions |
| Ratchet.TakeKeyMeets | crates/mycellium-core/src/group.rs:154-178 | a position yields a key exactly when banked or in [iteration, iteration+1024]; the key is its own, is spent, and every refusal leaves the state unchanged |
| Ratchet.AgreesWithPerfectReceiver | crates/mycellium-core/src/group.rs:154-186 | against a receiver that forgets nothing the bounded one accepts no more, and the same within 1024 positions either side |
| Ratchet.EveryRunReturnsOriginals | crates/mycellium-core/src/group.rs:134-186 | for every order of encrypts and deliveries each position is returned at most once, with its original plaintext, and the retention window holds |
| Ratchet.DeliveryOutcome | crates/mycellium-core/src/group.rs:134-152 | in a reachable receiver a delivery succeeds exactly when signed, in the window and under its own associated data; failure changes nothing |
| Ratchet.OwnMessageOutcome | crates/mycellium-core/src/group.rs:134-152 | the sender's own message is accepted, and gives its plaintext, exactly inside the window and under its own associated data |
| Groups.Group.Decrypt | crates/mycellium-core/src/group.rs:249-252 | only the sender's receiver key moves, by the ratchet's transition; an unknown sender changes nothing |
| Groups.Group.AddMember | crates/mycellium-core/src/group.rs:223-227 | a valid distribution replaces that member's key with an empty bank; an invalid signing key changes nothing |
| Groups.Group.Export | crates/mycellium-core/src/group.rs:279-297 | the snapshot lists each member once with its chain, position and banked keys |
| Groups.Group.Import | crates/mycellium-core/src/group.rs:300-326 | the restored group's state is what the snapshot restores to, sharing no receiver key with any group; refusal exactly on an invalid signing key |
| Groups.SnapshotRestores | crates/mycellium-core/src/group.rs:279-326 | restoring any snapshot of a group gives that group's whole state back |
| Groups.RestoresIffKeysValid | crates/mycellium-core/src/group.rs:306-309 | a snapshot restores exactly when every member's signing key is valid |
| History.KeysNeverCollide | crates/mycellium-engine/src/history.rs:66-92 | texts of segment, meta and index keys are injective for every thread id |
| History.TextStoreAgrees | crates/mycellium-engine/src/history.rs:78-92 | a store keyed by those texts answers like the model's structured keys after every mutation |
| History.OtherThreadsUntouched | crates/mycellium-engine/src/history.rs:278-370 | work on one thread leaves every other thread's list and bounds as they were |
| History.LoadSegments | crates/mycellium-engine/src/history.rs:105-118 | reading is the flat list, or a decoding failure exactly when a needed value does not decode |
| History.AppendSegmentMutations | crates/mycellium-engine/src/history.rs:123-169 | the message becomes the last of the flat list, segments stay bounded, only the tail segment and the count are written |
| History.Append | crates/mycellium-engine/src/history.rs:278-302 | appended exactly when its id is empty or no message of the thread has it; the peer is indexed; only tail, count and index are written; a failure changes nothing |
| History.GroupAppend | crates/mycellium-engine/src/history.rs:236-255 | the same without a peer index |
| History.LoadActiveSegments | crates/mycellium-engine/src/history.rs:173-198 | the thread becomes, and the result is, exactly the messages without expiry or expiring after now, in order; on failure a prefix of segments was pruned |
| History.DeleteSegments | crates/mycellium-engine/src/history.rs:202-224 | the thread becomes exactly the messages of another id or another author, in order |
| History.EditSegments | crates/mycellium-engine/src/history.rs:343-370 | exactly the messages of that id and author read as the new text marked as edited, in place; every other message is as it was |
| History.EditingInPlace | crates/mycellium-engine/src/history.rs:356-366 | editing keeps every message in its position and changes only the targeted texts |
| History.FilterKeeps | crates/mycellium-engine/src/history.rs:217-219 | filtering keeps exactly the messages that are not removed |
| History.Clear | crates/mycellium-engine/src/history.rs:320-338 | the thread is empty, its keys are gone, and exactly that peer leaves the index, in one batch |
| History.StepKeeps | crates/mycellium-engine/src/history.rs:105-370 | each operation acts on its own thread as on a list, keeps segments bounded, non-empty ids unique and the peer index exact |
| History.EveryRunIsAFlatList | crates/mycellium-engine/src/history.rs:105-370 | after any mix of operations on any threads each thread is the flat list of its own operations |
| PeerPins.PeerBook.CheckAndPin | crates/mycellium-engine/src/antirollback.rs:58-133 | accepts exactly records behind no pin, then pins exactly that record and moves no other device's or user's pins; refusal changes nothing |
| PeerPins.GuardsIffVersioned | crates/mycellium-engine/src/antirollback.rs:69-76 | every record accepted after a pinned one is fresher or the same claims exactly when the pinned one's sequence number is at least 1 |
| PeerPins.AcceptedAfterPinned | crates/mycellium-engine/src/antirollback.rs:69-97 | after a pinned record its device's next record is accepted exactly when no part goes back and each part is unchanged under an unchanged version; a never seen device's exactly under a higher identity version |
| PeerPins.AcceptedOnReturn | crates/mycellium-engine/src/antirollback.rs:77-97 | a replaced device returns exactly under a higher identity version with parts not behind its last pinned ones |
| PeerPins.UnversionedRollsBack | crates/mycellium-engine/src/antirollback.rs:99-102 | at sequence number 0 an accepted record can be lexicographically older |
| PeerPins.PinningNeverDrops | crates/mycellium-engine/src/antirollback.rs:104-131 | no identity, device or transport pin ever falls, also not of a retired device |
| PeerPins.PeerBook.Put | crates/mycellium-engine/src/peerbook.rs:80-115 | every refusal in the source's order; past the checks exactly with valid signatures, the wallet's own user id, the given handle, a bounded name, one device key, a verified destination and a non-empty address; the one entry updated or added, the pins advanced |
| PeerPins.PutKeeps | crates/mycellium-engine/src/peerbook.rs:80-115 | one verified entry per user, filed under its own handle, with pins equal to it; other users are untouched |
| PeerPins.FirstPutIsFiled | crates/mycellium-engine/src/peerbook.rs:80-115 | a well-formed record of a user never seen is filed |
| PeerPins.NextPutIffNotBehind | crates/mycellium-engine/src/peerbook.rs:80-115 | a held user's next well-formed record is filed exactly when nothing in it goes back (same device) or its identity version rises (new device), and is refused as stale otherwise |
| PeerPins.GetIffUnique | crates/mycellium-engine/src/peerbook.rs:52-65 | a handle resolves exactly when one entry carries it, to that entry's record |
| PeerPins.ForgottenHasNoPins | crates/mycellium-client/src/lib.rs:271-285 | whoever is forgotten has no pins any more, and success means the handle named exactly one entry |
| PeerPins.RefusedPutKeepsPinsIff | crates/mycellium-engine/src/peerbook.rs:94-98 | a refused put leaves every pin alone exactly unless the book does not decode, every other check passes and the pins are not already this record's |
| PeerPins.CorruptBookAdvancesPins | crates/mycellium-engine/src/peerbook.rs:94-98 | any first record put into a book that does not decode is refused and pinned |
| PeerPins.PeerBook.ResolveUserRecord | crates/mycellium-client/src/lib.rs:393-419 | looks the user up, verifies, checks trust and re-checks the pins |
| PeerPins.ResolvingHeldSucceeds | crates/mycellium-client/src/lib.rs:393-419 | re-checking a held record always succeeds and moves nothing |
| PeerPins.PeerBook.RemoveRecord | crates/mycellium-client/src/lib.rs:271-285 | removes only on exactly one entry of the handle, and forgets that user's pins |
| PeerPins.RemoveKeeps | crates/mycellium-engine/src/peerbook.rs:117-136 | exactly the one peer of the handle is forgotten; everyone else's record and pins stay |
| PeerPins.EveryRunIsMonotone | crates/mycellium-engine/src/peerbook.rs:80-136 | in any run of puts, look-ups and removals, while a user stays in the book its (identity, device, transport) freshness never falls, equal freshness means equal claims, and no pin falls |
| Envelopes.PadBucket | crates/mycellium-engine/src/wireops.rs:189-201 | the buffer is the length modulo 2^32, the payload and zeros, up to an allowed size |
| Envelopes.TargetIsTight | crates/mycellium-engine/src/wireops.rs:184-196 | the padded size is the smallest allowed one that holds the frame, and below four times it once the frame exceeds 64 bytes |
| Envelopes.PaddingRoundTrips | crates/mycellium-engine/src/wireops.rs:189-215 | unpadding gives the payload back exactly when it is below 2^32 bytes |
| Envelopes.UnpadMeans | crates/mycellium-engine/src/wireops.rs:205-215 | a frame is accepted as a payload exactly when it starts with that length and payload |
| Envelopes.SidesAgree | crates/mycellium-core/src/x3dh.rs:69-123 | initiator and responder reach the same secret, or both refuse a degenerate agreement |
| Envelopes.WeakAgreementIsRefused | crates/mycellium-core/src/x3dh.rs:24-29 | either side refuses exactly when one of its three agreements is degenerate |
| Envelopes.SealedOpens | crates/mycellium-engine/src/wireops.rs:112-180 | a sealed envelope opens on the addressed device to the sealed bytes exactly when the sender's record binds the handshake and the payload is below 2^32 bytes |
| Envelopes.OpensOnlyWhereAddressed | crates/mycellium-engine/src/wireops.rs:157-180 | it opens only under the addressed messaging key and a record that binds handle and handshake |

## Left out

- Cryptography, hashing and encoding: parameters whose laws are the predicates named `Sound`, injective constructors for digests, and stored values that stand for their encodings.
- Publish.PointerAlwaysResolves: assumes stored records verify (the branch for a stored record that no longer verifies is not modelled) and no I/O failure; the recovery secret is read as a write-once value, which `RecoverySlot.FirstSecretWins` justifies.
- RegistryRuns.PurgesAreInvisible: assumes drawn hashes never repeat and that no request reads an expiry with a time earlier than a cleanup that already ran; the lemmas named `Overtaken` say exactly what happens otherwise. An unknown and an expired login token count as the same refusal, because cleanup turns the second into the first.
- RegistryRuns.StepAgrees: times are non-negative; a negative expiry is clamped only in the key text. A row stands for its text key, which `ExpiryKeys` justifies.
- RegistryStore.Store.Open: the reverse index of sessions is taken as stored; the source does not rebuild it.
- Ratchet.SenderKey.Encrypt: requires a position below 2^32 - 1, where the source's `+= 1` overflows.
- Ratchet.ReceiverKey.MessageKey: requires that position 2^32 - 1 is not within reach, where the source's counter overflows.
- Ratchet.EveryRunReturnsOriginals: one sender and one receiver key; signatures are unforgeable.
- Groups.Group.Decrypt: the same bound on the position as the receiver key.
- Groups.Group.Export: the order of the listed members is not modelled.
- Outbox.FlushPass: requires fewer than 2^32 - 1 attempts of an entry that is due and retried, where the source adds without saturating.
- ClientOutbox.FlushShared: run alone; resolving, verifying and resealing for a recipient are one arbitrary outcome per entry.
- Delivery.DeliveredMeansRecorded: processing an item is an arbitrary accept or refuse with arbitrary replies; blocking, trust and remembering the sender are part of that choice.
- FileStore.RefinesPlainMap: a rename with its directory sync is one durable step, and the unlink of a data file is durable at once although the source syncs no directory for it; the unlink of the journal is not. Encryption and associated data are not modelled.
- History.Append: requires fewer than 2^32 - 1 segments, where the source's count overflows.
- History.GroupAppend: the same bound on the segment count.
- History.StepKeeps: relates successful operations; a failed prune, delete or edit leaves a prefix of segments rewritten, as its method says.
- PeerPins.EveryRunIsMonotone: the wallet-change guard is an arbitrary yes or no, and removing a user forgets its pins, so the claim is for stretches in which the user stays in the book.
- Envelopes.SealedOpens: a 64-bit `usize`; key agreement is commutative and only the right key with the right associated data decrypts.
- The Backup blob slot: it has no freshness order, so nothing of this kind holds for it.
- The accounts table and stored login identities: written and never read by the modelled operations.
- Legacy outbox and inbox layouts, discovery packs and record import/export, contacts, drafts, names, block list, safety numbers: easy members or formats only.
- Backup export and import of history files: an export includes the lock file that an import refuses, so no round trip can be stated.
- Command line, user interfaces, email senders, HTTP plumbing and transports.
