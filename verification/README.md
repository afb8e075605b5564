# Core Crypto: a verified model of storage, caching and certificate acquisition

This project models the parts of Core Crypto where several pieces of state have to agree:

- **The keystore.** A database holds persisted rows and at most one open transaction, which buffers saves and
  deletions in memory (`Keystore`, `Database`, `PendingMessages`) behind a semaphore with one permit (`Permits`).
- **Transaction contexts and the conversation cache.** A context opens a transaction, conversations are cached in a
  bounded least-recently-used map, and epoch notifications wait for the commit (`Lru`, `ContextModel`,
  `TransactionContext`, `Notifications`).
- **Proteus sessions**, cached as live objects over the same store (`ProteusModel`, `ProteusCentral`).
- **The PKI environment**, whose operations nest inside each other's transactions (`PkiModel`, `PkiEnvironment`).
- **Certificate acquisition**, an ACME client (RFC 8555) with Wire's DPoP and OIDC challenges (`Acme`,
  `Acquisition`, `Nonces`, `Outcomes`, `AcquisitionHandle`), and the scan over certification paths (`PathScan`).
- **Key package removal** (`KeyPackages`), **generated entity code** (`EntityDerive`), **client id conversions**
  (`ClientIds`) and **the ciphersuite migration** (`CiphersuiteMigration`).

Each stateful component appears twice: a value-level model on which the properties are proved over every run, and a
class whose methods, with the loops of the original, are proved to compute exactly that model. A section protected by
a lock is one step; in `Permits`, `Notifications` and `AcquisitionHandle` the steps of different callers interleave
freely and a call may be dropped between two of them, elsewhere calls run one after the other. The ACME server, the
application's hooks, the clock and hash-map iteration order are parameters that may answer anything, depending on
everything that happened before.
Parsers and cryptography are abstract functions; where a property needs an inverse, it is a stated hypothesis.

## Where the code does not do what one would expect

These are theorems too, each with the exact condition:

- A search filters before it merges, so it can return a row in a form the transaction has already replaced
  (`Keystore.SearchAgreesIff`).
- Entities with string ids are stored as text in SQLite but looked up and deleted by bytes, so their committed rows are
  neither found nor deleted by key (`EntityDerive.FoundByKeyIff`, `EntityDerive.DeletedByKeyIff`,
  `Keystore.GetAgreesIff`, `Keystore.CommitKeepsViewIff`); for Proteus sessions the cache then hides the loss
  (`ProteusModel.CommitKeepsCoherentIff`, `ProteusModel.TextIdsBreakTransparency`).
- Clearing the pending messages of a conversation and saving new ones in one transaction deletes the new ones on commit,
  while reading inside the transaction still shows the cleared ones (`PendingMessages.CommitMeetsIntentIff`,
  `PendingMessages.FindMeetsIntentIff`). The key hash has no separator, so messages of different conversations can
  collide (`PendingMessages.KeyCollisionIff`).
- A row type without upsert cannot be replaced by removing and saving it in one transaction
  (`Keystore.ReplacingPlainRowNeverCommits`).
- A comment in `finish` says a failed commit puts the keystore back to its state before the transaction. The code goes
  on as if the commit had not been attempted, with everything buffered still visible
  (`Keystore.RefusedCommitNeverHappened`); the context becomes invalid, and from then on nothing can be committed
  (`Permits.OrphansIff`, `Permits.OrphanedForever`).
- `finish` releases the permit when it commits and makes the context invalid only after the last notification. A call
  dropped in between leaves a usable context without a transaction: a second context can be opened, and the first can
  then commit the second's transaction (`Permits.AlwaysOrderlyIff`, `Permits.StrandedContextInterferes`). Announcements
  of two contexts can interleave (`Notifications.AlwaysConcatenationIff`, `Notifications.AnnouncementsInterleave`).
- A PKI operation can join a transaction that is not there yet (`Permits.JoinsNothingIff`).
- A conversation handle kept across an eviction writes past the cache (`ContextModel.MutateCoherentIff`,
  `ContextModel.HeldHandleGoesStale`).
- A PKI operation that joins an open transaction and fails leaves its first half in it
  (`PkiModel.JoinedFailureLeavesFirstHalf`).
- Running an acquisition and its snapshot both to the end reuses a nonce (`Nonces.RunTwiceIff`,
  `Nonces.RunTwiceReuses`).
- Looking at a finalized acquisition turns it back to "in progress", so only the first late call is told the truth, and a
  failed DPoP challenge leaves the handle "in progress" for ever (`AcquisitionHandle.ToldFinalizedIff`,
  `AcquisitionHandle.StuckForever`).

## Model

| member | source | states |
|---|---|---|
| `Keystore.MergedContents` | keystore/src/transaction/mod.rs:327-346 | a record is in the merged result iff it is not deleted and is the cached match if there is one, else the persisted match |
| `Keystore.SearchAgreesIff` | keystore/src/transaction/mod.rs:301-318 | merging the filtered cache with the filtered rows lists the matching part of the overlaid map, each record once, iff no buffered save moves a persisted match out of the searched set |
| `Keystore.SearchCanReturnStaleRow` | keystore/src/connection/mod.rs:304-313 | concrete failure: a re-parented group is still returned, in its old form, as a child of its old parent |
| `Keystore.LoadAllListsView` | keystore/src/connection/mod.rs:433-445 | loading a collection lists exactly the overlaid map, and the number of records is its size |
| `Keystore.GetAgreesIff` | keystore/src/connection/mod.rs:382-416 | every lookup by key answers from the overlaid map iff every persisted row the transaction does not mention has a type whose key is found again |
| `Keystore.ClosedGetIff` | keystore/src/connection/mod.rs:382-397 | without a connection exactly the ids the open transaction mentions can be read, and no commit succeeds |
| `Keystore.CommitOfRunIff` | keystore/src/transaction/mod.rs:350-392 | for any operations inside a transaction, its commit succeeds iff it wrote nothing, or the storage accepts the writes and no row it leaves saved is already persisted and of a type without upsert; otherwise which of the two errors is returned |
| `Keystore.CommitLeaves` | keystore/src/transaction/mod.rs:350-392 | what a successful commit leaves under every id: the buffered save; nothing for a deletion, except of the three text-keyed types on SQLite; else the row as before |
| `Keystore.CommitKeepsViewIff` | keystore/src/transaction/mod.rs:350-392 | a successful commit leaves the visible map unchanged iff every deleted persisted row can be found by its key |
| `Keystore.ReplacingPlainRowNeverCommits` | keystore/src/transaction/mod.rs:57-98 | removing and saving a row without upsert shows the new row and can never be committed |
| `Keystore.StepRefines` | keystore/src/connection/mod.rs:265-461 | on any rows, every operation does to a committed map and a working map what a caller expects; get, load_all and count answer from the visible map; search returns, each once, the records that match in the working map and the old forms of those saved since that no longer match, so it agrees iff there are none |
| `Keystore.RunRefinesTwoMaps` | keystore/src/connection/mod.rs:265-461 | the same over every run of begin, save, remove, commit, rollback, get, load_all, count and search |
| `Keystore.RefusedCommitNeverHappened` | keystore/src/connection/mod.rs:285-293 | after a refused commit every further run of reads, writes, commits and rollbacks goes as if it had not been attempted |
| `Keystore.RolledBackNeverHappened` | keystore/src/connection/mod.rs:295-302 | a transaction with any operations that ends in a rollback leaves the database as it was |
| `Database.Database.Open` | keystore/src/connection/mod.rs:136-148 | a new database has one permit and no transaction |
| `Database.Database.NewTransaction` | keystore/src/connection/mod.rs:265-270 | with the permit free, opens an empty transaction over none |
| `Database.Database.TryNewImmediateTransaction` | keystore/src/connection/mod.rs:275-283 | opens a transaction, or reports one in progress and changes nothing |
| `Database.Database.CommitTransaction` | keystore/src/connection/mod.rs:285-293 | the loops over saves and deletions compute the model's commit; the permit is released only on success |
| `Database.Database.RollbackTransaction` | keystore/src/connection/mod.rs:295-302 | drops the overlay and releases the permit |
| `Database.Database.Save` | keystore/src/connection/mod.rs:315-324 | buffers a save, or fails without a transaction |
| `Database.Database.Remove` | keystore/src/connection/mod.rs:326-335 | buffers a deletion, or fails without a transaction |
| `Database.Database.Get` | keystore/src/connection/mod.rs:382-397 | answers from the overlaid map for reachable types |
| `Database.Database.LoadAll` | keystore/src/connection/mod.rs:433-445 | lists the overlaid map's records of the type, each once |
| `Database.Database.Count` | keystore/src/connection/mod.rs:418-431 | the size of the overlaid collection, cast to 32 bits inside a transaction and refused by SQL outside |
| `Database.Database.Search` | keystore/src/connection/mod.rs:447-461 | in every case, each record once: a record is returned iff its id is not deleted and it is the buffered match, or there is none and it is the persisted match; this lists the matches of the overlaid map iff no match is stale |
| `Database.Database.Take` | keystore/src/connection/mod.rs:206-211 | takes the connection exactly once |
| `Database.SaveAll` | keystore/src/transaction/mod.rs:380-382 | the loop over buffered saves, in any order, inserts all of them, or fails iff one conflicts |
| `Database.DeleteAll` | keystore/src/transaction/mod.rs:384-386 | the loop over buffered deletions removes exactly the reachable ones |
| `PendingMessages.KeyCollisionIff` | keystore/src/entities/mls/mls_pending_message.rs:30-39 | unless the hash collides on these two inputs, two messages share a key iff conversation id and body run together to the same bytes; with ids of one length iff they are equal |
| `PendingMessages.CollidingSaveDropsMessage` | keystore/src/transaction/mod.rs:57-79 | buffering a colliding message of another conversation drops the first |
| `PendingMessages.RunBuffers` | keystore/src/transaction/mod.rs:57-98 | for any hash and run, the buffer holds under each key the message last saved there unless its conversation was cleared since, and exactly which marks remain |
| `PendingMessages.CommittedContents` | keystore/src/transaction/dynamic_dispatch/entity_id.rs:76-124 | for any hash and run, exactly which messages a commit leaves |
| `PendingMessages.FoundContents` | keystore/src/transaction/mod.rs:173-189 | for any hash and run, exactly which messages a lookup inside the transaction returns |
| `PendingMessages.CommitMeetsIntentIff` | keystore/src/transaction/mod.rs:152-171 | for any hash, a conversation is committed as meant iff: when marked for deletion, nothing saved in it since the clearing is left; otherwise no message was displaced by another with its key and clearing took nothing away |
| `PendingMessages.FindMeetsIntentIff` | keystore/src/transaction/mod.rs:173-189 | a lookup inside the transaction of a cleared conversation sees what was meant iff every persisted message of it was saved again since |
| `Permits.NextKeepsInv` | keystore/src/connection/mod.rs:265-302 | every step keeps: free permits plus permits in flight plus open transactions is one |
| `Permits.PermitConserved` | keystore/src/connection/mod.rs:206-302 | the same in every interleaving of contexts, finishing, PKI operations, closing and dropped calls |
| `Permits.AlwaysOrderlyIff` | crypto/src/transaction_context/mod.rs:199-235 | at every point of a run at most one context is usable and only the opener can end its transaction, iff no call of `finish` was dropped between its commit and the invalidation |
| `Permits.InstallFindsNoTransaction` | keystore/src/connection/mod.rs:265-270 | installing a transaction never overwrites an open one |
| `Permits.CommitsAreByOpener` | crypto/src/transaction_context/mod.rs:199-262 | then every commit of the run was made by the opener of its transaction |
| `Permits.StrandedContextInterferes` | crypto/src/transaction_context/mod.rs:210-233 | a context left usable by such a call lets any second context in, and then commits the second's transaction |
| `Permits.DroppedFinishStrands` | crypto/src/transaction_context/mod.rs:210-233 | the run that gets there: open, commit, drop the call |
| `Permits.OrphansIff` | crypto/src/transaction_context/mod.rs:199-235 | a step orphans the transaction iff it ends a refused commit or the opener is forgotten |
| `Permits.OrphanedForever` | keystore/src/connection/mod.rs:265-293 | once orphaned, in every continuation that strands no context nothing is committed, no context is created and the connection is never taken |
| `Permits.JoinsNothingIff` | keystore/src/connection/mod.rs:265-283 | a PKI operation joins while no transaction is open iff the permit is in flight |
| `Notifications.AnnouncedOnceInOrder` | crypto/src/transaction_context/mod.rs:216-225 | in every interleaving without such drops, each context whose commit went through has its queue announced once and in order as far as it has come, and no other has anything announced |
| `Notifications.AnnouncedOrLost` | crypto/src/transaction_context/mod.rs:199-235 | in every interleaving, dropped calls included, what is announced for a context is the beginning of what it queued without the events left whenever its announcing was dropped, and all of it but for what its queue still holds |
| `Notifications.AlwaysConcatenationIff` | crypto/src/transaction_context/mod.rs:216-225 | at every point the log is the beginning of the committed queues in commit order iff every announcement was made with nobody before it in line |
| `Notifications.IdleLogIsConcatenation` | crypto/src/transaction_context/mod.rs:216-225 | and once nobody is left announcing, the log is those queues |
| `Notifications.NoOverlapIsInLine` | crypto/src/transaction_context/mod.rs:199-235 | so the log is the concatenation if no context commits while another is announcing |
| `Notifications.OverlapCanBreakOrder` | crypto/src/transaction_context/mod.rs:199-235 | and whenever two contexts are left announcing, some continuation loses the order |
| `Notifications.AnnouncementsInterleave` | crypto/src/mls/session/epoch_observer.rs:41-45 | while one context is announcing, any other can open, commit and announce in between |
| `Lru.TouchFinds` | crypto/src/mls/conversation_cache.rs:43-74 | a hit reorders the cache and changes no lookup |
| `Lru.TouchedIsFirst` | crypto/src/mls/conversation_cache.rs:49-51 | the entry hit comes first and the others keep their order |
| `Lru.TouchedIsSpared` | crypto/src/mls/conversation_cache.rs:49-51 | so the next insertion under another key does not evict it |
| `Lru.InsertFinds` | crypto/src/mls/conversation_cache.rs:92-97 | the entry just inserted is found, and any other entry found afterwards was there before |
| `Lru.InsertAsMap` | crypto/src/proteus/session_cache.rs:70-76 | as a map, insertion adds the entry and removes exactly the evicted key |
| `Lru.WithoutAsMap` | crypto/src/proteus/session_cache.rs:79-81 | as a map, removal removes exactly the key |
| `ContextModel.FetchKeeps` | crypto/src/mls/conversation_cache.rs:43-74 | a lookup, hit or miss, with or without eviction, keeps every cached conversation equal to what a load gives |
| `ContextModel.MutateCoherentIff` | crypto/src/mls/conversation/mutable/group_mutation.rs:25-54 | exactly when running an operation through a handle keeps the cache equal to the store, with the changed mark that survives a failed operation |
| `ContextModel.HeldHandleGoesStale` | crypto/src/mls/conversation/mutable/group_mutation.rs:25-54 | a handle that outlived its cache entry makes the cached object stale |
| `ContextModel.StepTransparent` | crypto/src/mls/conversation_cache.rs:43-110 | one operation answers and stores the same as without a cache, and keeps the cache coherent and within capacity |
| `ContextModel.RunTransparent` | crypto/src/transaction_context/mod.rs:199-262 | the same over every run, across hits, misses, evictions, creation, wiping, operations through current handles, commits that succeed or fail, and aborts |
| `ContextModel.CreatedIsFound` | crypto/src/transaction_context/conversation/persistence.rs:26-51 | a new conversation is cached and loads back, and no other conversation loads differently |
| `ContextModel.VisitedIsStored` | crypto/src/mls/conversation/mutable/group_mutation.rs:25-54 | an operation that succeeds leaves the changed group to be loaded, hit or miss, and touches no other |
| `ContextModel.FailedChangeIsPersistedLater` | crypto/src/mls/conversation/mutable/group_mutation.rs:25-54 | a change made by an operation that failed is not stored then, but by the next one that succeeds |
| `ContextModel.WipedIsGone` | crypto/src/mls/conversation/mutable/wipe.rs:12-54 | a wiped conversation is neither cached nor loaded any more, and the others are |
| `ContextModel.AbortRestores` | crypto/src/transaction_context/mod.rs:240-262 | whatever is done to rows, groups and handles inside, an abort leaves the database as it was and an empty cache |
| `ContextModel.AbortedNeverHappened` | crypto/src/transaction_context/mod.rs:240-262 | after any operations, failed or through any handle, ended by an abort, every later read and lookup answers and stores as if the transaction had not been opened |
| `ContextModel.EndRestoresCoherence` | crypto/src/mls/conversation_cache.rs:18-21 | from a cache that drifted from the store, an abort and a refused commit make it coherent again, and a successful commit leaves it as coherent as it was |
| `ContextModel.DeliveredIsAnnounced` | crypto/src/transaction_context/mod.rs:184-235 | when calls run one after the other, the notifications delivered are the queues of the contexts whose commit succeeded, in commit and queue order |
| `ContextModel.EndedIsInert` | crypto/src/transaction_context/mod.rs:42-48 | after the first commit or abort, no call on any clone changes store, cache or observer |
| `TransactionContext.ConversationCache.Get` | crypto/src/mls/conversation_cache.rs:49-51 | returns the entry and makes it most recent |
| `TransactionContext.ConversationCache.GetOrFetch` | crypto/src/mls/conversation_cache.rs:43-74 | all cases of a lookup: hit, error, missing, inactive and dropped, loaded and cached |
| `TransactionContext.ConversationCache.Exists` | crypto/src/mls/conversation_cache.rs:79-89 | cached or stored, without reordering |
| `TransactionContext.ConversationCache.Insert` | crypto/src/mls/conversation_cache.rs:92-97 | the new entry is present, at most the oldest one goes |
| `TransactionContext.ConversationCache.Remove` | crypto/src/mls/conversation_cache.rs:100-102 | returns and removes the entry |
| `TransactionContext.ConversationCache.Clear` | crypto/src/mls/conversation_cache.rs:108-110 | empties the cache |
| `TransactionContext.TransactionContext.New` | crypto/src/transaction_context/mod.rs:60-75 | opens the transaction with an empty queue |
| `TransactionContext.TransactionContext.QueueEpochChanged` | crypto/src/transaction_context/mod.rs:184-194 | appends to the queue of a valid context only |
| `TransactionContext.TransactionContext.Finish` | crypto/src/transaction_context/mod.rs:199-235 | commit, then drain the queue in order or clear the cache, then become invalid |
| `TransactionContext.TransactionContext.Abort` | crypto/src/transaction_context/mod.rs:240-262 | clear the cache, roll back, become invalid |
| `TransactionContext.TransactionContext.MutateGroup` | crypto/src/mls/conversation/mutable/group_mutation.rs:25-54 | the group changes in memory in any case, and is stored after a success if it is marked as changed, by this operation or an earlier failed one |
| `ProteusModel.CommitKeepsCoherentIff` | crypto/src/proteus/session_cache.rs:41-67 | a successful commit keeps the cache equal to the store iff committed sessions are found by their id, or none is cached |
| `ProteusModel.StepTransparent` | crypto/src/proteus/message.rs:11-64 | on every backend, one call gives the output and stores the sessions that reloading from the store would, with that condition at a commit |
| `ProteusModel.CacheTransparent` | crypto/src/proteus/session_cache.rs:41-81 | the same over every run without rollback or failed commit, under any evictions |
| `ProteusModel.EncryptStores` | crypto/src/proteus/message.rs:31-42 | encryption answers and stores what advancing the stored session gives, and that session only; every error leaves the store as it was |
| `ProteusModel.DecryptStores` | crypto/src/proteus/message.rs:11-28 | the same for decryption, with the prekeys the library leaves |
| `ProteusModel.CreatedFromPrekey` | crypto/src/proteus/session.rs:9-57 | the session made from a bundle is cached and is what is stored under the id, or nothing changes |
| `ProteusModel.CreatedFromMessage` | crypto/src/proteus/session.rs:60-77 | the same for a session made from a message, whose payload is returned |
| `ProteusModel.DeletedIsGone` | crypto/src/proteus/session.rs:106-111 | a deleted session is gone from cache and store, and no other is |
| `ProteusModel.ExistsIff` | crypto/src/proteus/session.rs:123-125 | a session exists iff it is stored; saving stores the session as it was |
| `ProteusModel.TextIdsBreakTransparency` | crypto/src/proteus/session_cache.rs:41-67 | on SQLite a committed session encrypts while cached and does not exist once evicted |
| `ProteusModel.CoherentAfterRollbackIff` | crypto/src/transaction_context/mod.rs:240-262 | a rollback leaves the session cache correct iff, for every cached session the transaction saved, the persisted row is found and holds that session |
| `ProteusModel.BatchAppend` | crypto/src/proteus/message.rs:46-64 | a batch stops at its first error, and otherwise is its parts one after the other |
| `ProteusModel.BatchReaches` | crypto/src/proteus/message.rs:46-64 | a batch that succeeds has a message for exactly the ids asked for that have a stored session |
| `ProteusCentral.ProteusCentral.Insert` | crypto/src/proteus/session_cache.rs:70-76 | the entry just inserted is present, whatever is evicted |
| `ProteusCentral.ProteusCentral.GetOrFetch` | crypto/src/proteus/session_cache.rs:41-67 | computes the model's lookup, with the least recently used entry evicted |
| `ProteusCentral.ProteusCentral.Encrypt` | crypto/src/proteus/message.rs:31-42 | advances the cached session and saves it |
| `ProteusCentral.ProteusCentral.Decrypt` | crypto/src/proteus/message.rs:11-28 | advances session and prekeys and saves |
| `ProteusCentral.ProteusCentral.EncryptBatched` | crypto/src/proteus/message.rs:46-64 | the loop skips missing sessions, stops at any other error, and collects the messages |
| `ProteusCentral.ProteusCentral.SessionFromPrekey` | crypto/src/proteus/session.rs:9-57 | creates, caches and saves a session |
| `ProteusCentral.ProteusCentral.SessionFromMessage` | crypto/src/proteus/session.rs:60-77 | creates a session from a message, caches and saves it |
| `ProteusCentral.ProteusCentral.SessionSave` | crypto/src/proteus/session.rs:83-103 | saves the session looked up, or reports it missing |
| `ProteusCentral.ProteusCentral.SessionDelete` | crypto/src/proteus/session.rs:106-111 | removes the session from store and cache |
| `ProteusCentral.ProteusCentral.SessionExists` | crypto/src/proteus/session.rs:123-125 | whether a lookup finds a session |
| `PkiModel.JoinedOnlyBuffers` | e2e-identity/src/pki_env/mod.rs:170-188 | nested to any depth in an open transaction, an operation buffers its records up to its first failure and ends nothing |
| `PkiModel.OutermostDecides` | e2e-identity/src/pki_env/mod.rs:170-188 | the outermost call stores every record of the nest, or leaves the database as it was, or has its commit refused and leaves the transaction open |
| `PkiModel.AddIntermediateAllOrNothing` | e2e-identity/src/pki_env/mod.rs:275-299 | started with no transaction: the certificate and, under every distribution point, the accepted form of the body last answered for it, with every other row as before; or nothing unless the commit itself was refused |
| `PkiModel.AddIntermediateSucceedsIff` | e2e-identity/src/pki_env/mod.rs:275-299 | every record is produced iff the distribution points can be read, all are answered with a success status and all lists validate |
| `PkiModel.FetchCrls` | e2e-identity/src/pki_env/crl.rs:14-34 | lists are fetched iff every answer has a success status, and each lies under its own address, the last one if an address comes twice |
| `PkiModel.JoinedFailureLeavesFirstHalf` | e2e-identity/src/pki_env/mod.rs:275-299 | joined to an open transaction, a failure leaves the certificate buffered |
| `PkiModel.SaveCrlsMeaning` | e2e-identity/src/pki_env/crl.rs:38-52 | saving the map of CRLs succeeds iff all validate, and then stores each under its distribution point |
| `PkiEnvironment.FetchCrlList` | e2e-identity/src/pki_env/crl.rs:14-34 | the loop fetches every list, or fails iff some answer is missing or without a success status; under each address lies the body of its own, last answer |
| `PkiEnvironment.PkiEnvironment.SaveCrl` | e2e-identity/src/pki_env/crl.rs:38-52 | one validated CRL in a nested transactional call |
| `PkiEnvironment.PkiEnvironment.AddIntermediateCert` | e2e-identity/src/pki_env/mod.rs:275-299 | computes the model's operation for some iteration order of the map |
| `Acme.OrderAcceptedIff` | e2e-identity/src/acme/order.rs:177-226 | an order is accepted iff its two identifiers differ, parse and agree on handle, name and domain, and its dates fit the clock; otherwise which of these is reported |
| `Acme.OrderVerdictIgnoresSetOrder` | e2e-identity/src/acme/order.rs:177-226 | verdict and error do not depend on hash-set iteration order |
| `Acme.CoalescedDescribesBoth` | e2e-identity/src/acme/order.rs:230-240 | the identity taken from an accepted order is described by both identifiers, and its client id is the first device identifier's |
| `Acme.ArrangedByIdentifier` | e2e-identity/src/acme/authz.rs:93-127 | accepted authorizations are arranged iff one is a device's and one a user's, the same in either order |
| `Acme.AuthorizationAcceptedIff` | e2e-identity/src/acme/authz.rs:29-48 | an authorization is accepted iff its challenge is of the identifier's kind, it has not expired, its token encodes at least 16 bytes and it is pending |
| `Acme.DecodeAll` | e2e-identity/src/acme/certificate.rs:40-44 | all blocks decode, in order, or none is returned |
| `Acme.CertificateResponse` | e2e-identity/src/acme/certificate.rs:26-45 | the loop computes the list of certificates; an empty list is an error |
| `Acme.CertificatesIff` | e2e-identity/src/acme/certificate.rs:26-45 | certificates are returned iff the order verifies and there are blocks that all decode, and then they are those, in order |
| `Nonces.AcquisitionThreads` | e2e-identity/src/acquisition/dpop_challenge.rs:62-196 | against any server the signed requests are a prefix of the eight of the protocol, all eight on success, and each carries the nonce of the answer right before it |
| `Nonces.CompleteDpopThreads` | e2e-identity/src/acquisition/dpop_challenge.rs:62-196 | the first half sends its five signed requests in order and its result carries the nonce of the last answer; what they contain is `Outcomes.FirstHalf` |
| `Nonces.CompleteOidcPiece` | e2e-identity/src/acquisition/oidc_challenge.rs:17-98 | the second half sends its three requests in order, starting with the nonce of the state |
| `Nonces.AccountRequestPiece` | e2e-identity/src/acquisition/mod.rs:131-145 | one request appends one signed message with the given nonce and hands on the nonce of its answer |
| `Nonces.NonceUsedOnce` | e2e-identity/src/acquisition/mod.rs:131-145 | if the server never repeats a nonce, no two signed requests carry the same one |
| `Nonces.ResumedThreads` | e2e-identity/src/acquisition/serialization.rs:31-43 | resuming from a snapshot instead of the original continues the same chain of nonces and behaves identically |
| `Nonces.SendsIff` | e2e-identity/src/acquisition/oidc_challenge.rs:21-43 | the second half sends anything iff there is a thumbprint, an identity token, an account URL and a key that signs |
| `Nonces.RunTwiceIff` | e2e-identity/src/acquisition/oidc_challenge.rs:17-85 | running the second half twice keeps the chain iff those guards stop the second run or the server gave the first nonce out again |
| `Nonces.RunTwiceReuses` | e2e-identity/src/acquisition/oidc_challenge.rs:17-85 | if both runs get past their guards, two requests carry one nonce |
| `Outcomes.ChainAcceptedIff` | e2e-identity/src/acquisition/checks.rs:11-40 | exactly which chains are accepted |
| `Outcomes.LeafAcceptedIff` | e2e-identity/src/acquisition/checks.rs:44-97 | the leaf is accepted iff algorithm, public key, client id, display name, handle and domain are those configured |
| `Outcomes.FirstMismatch` | e2e-identity/src/acquisition/checks.rs:44-97 | the error names the first of the seven comparisons that fails |
| `Outcomes.AcquisitionSuccess` | e2e-identity/src/acquisition/oidc_challenge.rs:81-97 | whatever is answered, success returns the signing key and a non-empty, validated chain whose leaf matches the configuration |
| `Outcomes.SuccessIsPossible` | e2e-identity/src/acquisition/mod.rs:88-92 | for every configuration some server, hooks, parsers and cryptography lead to a credential, so the statements about success are not empty |
| `Outcomes.NeverPanics` | e2e-identity/src/acquisition/checks.rs:11-97 | with a valid directory URL, key and handle, no answer makes any expectation fail, including "at least one certificate" |
| `Outcomes.ChallengesByIdentifier` | e2e-identity/src/acquisition/dpop_challenge.rs:31-59 | both authorizations are read at their own address in the account's name and accepted, and the device's DPoP challenge comes first and the user's OIDC challenge second, whichever order the server chose |
| `Outcomes.OrderPlaced` | e2e-identity/src/acme/order.rs:15-50 | a placed order means exactly four exchanges: the directory, its nonce, an account opened with the ACME key, and an order in its name for the configured client id, name, qualified handle and domain; account and order as answered are valid and verified |
| `Outcomes.FirstHalf` | e2e-identity/src/acquisition/dpop_challenge.rs:62-196 | a completed first half means exactly nine exchanges, each with its address, sender and content: those four, the two authorizations, the backend nonce and token, and the token posted to the DPoP challenge and answered "valid" |
| `Outcomes.RequestedIdentity` | e2e-identity/src/acme/finalize.rs:14-36 | a certificate is requested only for an identity both identifiers of the order agree on |
| `Outcomes.DpopTokenBound` | e2e-identity/src/acquisition/dpop_challenge.rs:130-177 | a completed DPoP challenge means: the backend gave a nonce, a proof over that nonce, that challenge and this client was exchanged for a token, and that token was posted to that challenge |
| `Outcomes.OidcTokenBound` | e2e-identity/src/acquisition/oidc_challenge.rs:17-81 | success means: the application got a snapshot of this state and a key authorization of challenge token, dot and thumbprint, and gave a token; it was posted to the OIDC challenge and answered "valid", the order was finalized, and the chain was fetched from the URL in that answer |
| `AcquisitionHandle.NextKeepsInv` | crypto-ffi/src/e2ei/mod.rs:196-237 | every step keeps: at most one call took the acquisition, and none while the handle holds it |
| `AcquisitionHandle.AtMostOneTakes` | crypto-ffi/src/e2ei/mod.rs:196-237 | in every interleaving of any number of calls at most one gets a credential or a failure of the acquisition |
| `AcquisitionHandle.FinishedCallReturns` | crypto-ffi/src/e2ei/mod.rs:196-237 | the call that carried the acquisition to its end returns a credential iff it succeeded, and went through the DPoP challenge iff the handle had not done so before |
| `AcquisitionHandle.NeverFreshAgain` | crypto-ffi/src/e2ei/mod.rs:114-119 | once taken, the handle never holds the acquisition again |
| `AcquisitionHandle.FinalizedIff` | crypto-ffi/src/e2ei/mod.rs:196-237 | the handle reads "finalized" iff the acquisition ended and no call has looked since |
| `AcquisitionHandle.ToldFinalizedIff` | crypto-ffi/src/e2ei/mod.rs:196-237 | a call is told "finalized" iff it is the first to look after the end |
| `AcquisitionHandle.FailureSticks` | crypto-ffi/src/e2ei/mod.rs:203-212 | a failed DPoP challenge or a dropped call leaves nobody working and the handle "in progress" |
| `AcquisitionHandle.StuckForever` | crypto-ffi/src/e2ei/mod.rs:222-226 | from there every later call is told "in progress", in every continuation |
| `PathScan.StatusFault` | e2e-identity/src/x509_check/revocation.rs:59-73 | exactly the three statuses that count as fine; a missing status does not, and any other is reported as it is |
| `PathScan.ValidateCert` | e2e-identity/src/x509_check/revocation.rs:261-312 | accepts iff the validation status of some path, with the setting it is reached with, and its revocation status if asked for, are fine; else reports the status that failed on the last path; CRL checking is on iff revocation is asked for and an earlier path was valid |
| `PathScan.RevocationNeverWidens` | e2e-identity/src/x509_check/revocation.rs:288-311 | with revocation checks nothing is accepted that plain validation rejects, although the CRL setting leaks from path to path |
| `PathScan.AcceptedIffSomePath` | e2e-identity/src/x509_check/revocation.rs:288-311 | if validation ignores the leaked setting, acceptance means some path with both statuses fine, in whatever order |
| `KeyPackages.RemoveOneView` | crypto/src/transaction_context/key_package.rs:74-97 | one removal takes exactly the package and its two private keys, and fails iff the stored package cannot be read, with that error |
| `KeyPackages.RemoveAllView` | crypto/src/transaction_context/key_package.rs:106-145 | the rows left are the rows before minus those of every removed package, whatever the order and whatever failed |
| `KeyPackages.RemoveAllFailsIff` | crypto/src/transaction_context/key_package.rs:106-145 | an error is returned iff, judged by the rows before, some removal must fail |
| `KeyPackages.FirstErrorInside` | crypto/src/transaction_context/key_package.rs:106-145 | the error returned is that of the first package whose removal must fail, judged by the rows before |
| `KeyPackages.FirstErrorOutside` | crypto/src/transaction_context/key_package.rs:106-145 | without a transaction nothing changes, and the error is again that of the first package that fails |
| `KeyPackages.AllRemovedIff` | crypto/src/transaction_context/key_package.rs:106-145 | no readable package with the signature key remains iff each was stored under a reference of one of them |
| `KeyPackages.PrivateKeySurvivesIff` | crypto/src/transaction_context/key_package.rs:85-94 | a private key survives iff no removed package uses it |
| `KeyPackages.MatchingContents` | crypto/src/mls/session/key_package.rs:14-30 | exactly the readable packages with the signature key are attempted; unreadable ones are skipped |
| `KeyPackages.MatchingInOrder` | crypto/src/mls/session/key_package.rs:14-30 | and they are attempted in the order listed |
| `KeyPackages.RemoveKeyPackage` | crypto/src/transaction_context/key_package.rs:74-97 | computes the single removal on the database |
| `KeyPackages.RemoveKeyPackagesFor` | crypto/src/transaction_context/key_package.rs:106-145 | the loop attempts every match and computes the removal of all; the error is that of the least failing index |
| `EntityDerive.ParseColumns` | crypto-macros/src/entity_derive/is_id.rs:32-73 | the id is the one marked field, else the field named id; both errors exactly characterised; id and others are a permutation of the fields |
| `EntityDerive.StoredInColumn` | crypto-macros/src/entity_derive/derive_impl.rs:183-210 | each field is stored under its column name if it has one, else under its own, as text, bytes or null |
| `EntityDerive.SaveLoad` | crypto-macros/src/entity_derive/derive_impl.rs:183-210 | names and values line up: with distinct column names, loading the row that was saved gives the entity back |
| `EntityDerive.SaveLoadAll` | crypto-macros/src/entity_derive/derive_impl.rs:293-326 | loading the whole table after a save gives the entities with other ids, in order, and the one saved |
| `EntityDerive.FoundByKeyIff` | crypto-macros/src/entity_derive/derive_impl.rs:329-362 | a saved entity is found by its key iff its id is bytes, never if it is a string |
| `EntityDerive.DeletedByKeyIff` | crypto-macros/src/entity_derive/derive_impl.rs:257-290 | deleting by key removes a row iff its id is bytes |
| `EntityDerive.EncryptDecrypt` | crypto-macros/src/entity_derive/derive_impl.rs:416-570 | decrypting an encrypted entity gives it back, for an invertible cipher, with columns that skip encryption |
| `EntityDerive.EncryptedForm` | crypto-macros/src/entity_derive/derive_impl.rs:496-570 | only the id and the columns that skip encryption stay readable; every other value is encrypted with the bytes of the id as additional data |
| `ClientIds.DecodeEncode` | e2e-identity/src/legacy/id.rs:43-63 | strict unpadded base64url decodes what it encodes |
| `ClientIds.EncodeDecode` | e2e-identity/src/legacy/id.rs:43-63 | and every accepted text is the encoding of its bytes |
| `ClientIds.EncodedAsNumber` | e2e-identity/src/legacy/id.rs:119-137 | three bytes become four letters of the alphabet of RFC 4648 section 5 with the same value, most significant first |
| `ClientIds.EncodedTail` | e2e-identity/src/legacy/id.rs:119-137 | one or two bytes left over become the first two or three letters of the same bytes filled up with zeros |
| `ClientIds.FromE2eiAndBack` | e2e-identity/src/legacy/id.rs:119-137 | every accepted base64url id comes back unchanged |
| `ClientIds.FromWireAndBack` | e2e-identity/src/legacy/id.rs:43-63 | every accepted Wire id comes back, unchanged iff its user part was canonical |
| `ClientIds.UserIdOfConverted` | e2e-identity/src/legacy/id.rs:17-21 | reading the user id of a converted value cannot fail |
| `ClientIds.AcceptedIff` | e2e-identity/src/legacy/id.rs:43-63 | an id is accepted iff it is the encoding of 16 bytes, a colon, and text without a colon |
| `ClientIds.AcceptedWireIff` | e2e-identity/src/legacy/id.rs:119-137 | a Wire id is accepted iff it is a UUID in one of its written forms, a colon, and text without a colon |
| `ClientIds.FormatIsHyphenated` | e2e-identity/src/legacy/id.rs:43-63 | the user part written is 36 characters: lower-case digits with hyphens in the four places |
| `ClientIds.HexAt` | e2e-identity/src/legacy/id.rs:43-63 | its digits are the two halves of each byte, high half first |
| `CiphersuiteMigration.CountOccurrences` | keystore/src/migrations.rs:149-166 | the loop computes the four counters modulo 2^32, or stops at a group that cannot be read |
| `CiphersuiteMigration.TallyCounts` | keystore/src/migrations.rs:135-166 | each counter is the number of groups with that ciphersuite modulo 2^32 |
| `CiphersuiteMigration.TallyIgnoresOrder` | keystore/src/migrations.rs:149-166 | the result does not depend on the order of the groups |
| `CiphersuiteMigration.ChoiceInverts` | keystore/src/migrations.rs:203-219 | the chosen ciphersuite has the signature scheme asked for |
| `CiphersuiteMigration.ChosenAndLeastUsedDiffer` | keystore/src/migrations.rs:185-264 | the chosen and the least used suite are the two different members of the pair, or both are undefined |
| `CiphersuiteMigration.ChoiceKeepsMajority` | keystore/src/migrations.rs:185-221 | with fewer than 2^32 groups the choice keeps at least half of them, a tie goes to the smaller number, and none means unused |
| `CiphersuiteMigration.LeastUsedIsSymmetric` | keystore/src/migrations.rs:230-264 | the least used of two suites does not depend on the order they are given in |
| `CiphersuiteMigration.LeastUsedIsLeast` | keystore/src/migrations.rs:230-264 | it is undefined exactly for an unambiguous suite or none in use; else no other has fewer groups, and a tie goes to the higher number |
| `CiphersuiteMigration.WrappedCounterHidesGroups` | keystore/src/migrations.rs:149-166 | with 2^32 groups the counter wraps to zero and a suite in use looks unused |

## Left out

- Deadlock freedom and fairness: only safety is stated; waiting for the permit is a precondition or an enabling condition.
- Tables without a primary key or with a fixed one: pending groups, the Proteus identity and the end-to-end identity refresh token.
- `parent_id` of a conversation and its column: child groups appear only as a search over stored rows.
- Flattening of row types: a cached row is identified by its type and key, while the original keeps one map per collection name.
- Keystore.RunRefinesTwoMaps: the connection stays open, and deletions and lookups by key are of types whose keys are found again; `ClosedGetIff`, `GetAgreesIff` and `CommitKeepsViewIff` state the rest exactly.
- PendingMessages.FindMeetsIntentIff: the keys of the messages at hand do not clash; `FoundContents` states what is found for any hash.
- Permits.OrphanedForever: a context stranded by a dropped `finish` can end another's transaction, orphaned or not.
- Notifications.AnnouncedOnceInOrder: an MLS session is set throughout, and no `finish` is dropped after its commit; `AnnouncedOrLost` covers runs with such drops.
- A commit whose future is dropped in the middle of its writes: a commit is one step.
- ContextModel.RunTransparent: operations keep groups under their id and active, change nothing if they fail, and go through a handle that is current; `MutateCoherentIff` states what happens otherwise.
- ContextModel.DeliveredIsAnnounced: calls run one after the other; `Notifications` states what holds when they overlap.
- An OpenMLS operation is taken to mark a group as changed iff it changes it.
- ContextModel.AbortedNeverHappened: says nothing about `mls_init` or Proteus sessions, which an abort does not undo; `CoherentAfterRollbackIff` states when the session cache survives.
- ProteusModel.CacheTransparent: assumes that serialization is invertible and that a failed library operation leaves the session as it was, and excludes rollbacks and failed commits; `CommitKeepsCoherentIff` and `CoherentAfterRollbackIff` are exact.
- ProteusCentral.ProteusCentral.Decrypt: prekeys are a value of their own, not rows of the database, so a rollback does not bring them back.
- ProteusCentral.ProteusCentral.SessionFromMessage: the same holds for the prekey it uses up.
- PkiModel.AddIntermediateAllOrNothing: is about the database; trust anchors and CRL sources kept in memory are not modelled.
- Outcomes.NeverPanics: parsing the configured URL, key and handle is a hypothesis a caller can check, not something proved of the constructors.
- Nonces.ResumedThreads: that the JSON snapshot reads back as the state it was made from is a hypothesis.
- CiphersuiteMigration.CountOccurrences: counters wrap as in a build without overflow checks; a build with them stops instead.
- Error values are merged where the original only distinguishes messages; panics are an error value of their own.
- JWT, DER, PEM, JSON, HPKE, AEAD, OpenMLS and Proteus internals, and certificate path validation itself: abstract functions.
- The foreign-function layer apart from the acquisition handle, and the platform database connections: wrappers and I/O.
- MLS message processing, commits and proposals, buffered messages and credential handling: they sit on OpenMLS.
