# Object database: replica, commit protocol and their supporting protocols

`object_database` is an in-memory transactional object store. A server orders transactions and refuses those whose
reads have changed. Clients keep a multi-version replica of what they subscribe to, and read from snapshots of it.
This project models that system in Dafny and proves what holds of it over every run.

Everything is measured against one simple meaning, `Database.StateAt(log, v)`: the fields and index memberships after
the transactions of a log up to number `v`. There are no versions, caches, queues or garbage collection in it.

* **Replica** (`VersionedIdSet`, `VersionHistory`, `VersionChain`, `VersionedObjectsOfMultiType`, `VersionedObjects`,
  `DatabaseConnectionState`): classes with the source's maps and queues, each with a ghost field for its meaning and a
  `Valid()` invariant tying the two together. Collection drops versions but changes no read at or above the minimum id;
  as long as no view is open, it drops all that nobody can read (`Replication.ApplyWithoutViews`).
* **Server** (`Persistence`, `ServerStore`, `Server`, `SubscriptionSnapshot`, `LargeSubscription`): the store with its
  index sets, reverse map and metadata; version-number conflict checks and their garbage collection; subscriptions served
  at once or in batches while the server goes on handling requests in between.
* **Both together** (`Replication`, `SystemSpec`, `Runs`, `Breakdown`): a client that applies what it was sent reads, at
  every snapshot it keeps, what the server had committed at that transaction, and the next message is always one it may
  apply. `Runs.RunSystem` proves this for every mixed run of requests accepted and refused, connections, subscriptions,
  batches, version collection, deliveries and views opening and closing, up to the first request whose index changes
  contradict the server's indices; `SystemSpecs.ServedInRun` and `SystemSpecs.ServedInBatches` add what subscriptions made
  in the middle of a run are worth at its end.
* **Transactions** (`View`, `DatabaseObjectType`, `Commits`, `Listing`): the overlay of a transaction over its snapshot,
  the secondary indices kept in step with the fields, and why the server can trust the index changes it is sent: it
  accepts a transaction exactly if nothing read has changed, and then all indices of all committed states are in step
  again. An index over several fields has no subscribers of its own; it reaches a client because it only changes together
  with one of its fields.
* **Supporting protocols** (`TransactionChunks`, `Framing`, `MessageBuffer`, `PumpLoop`, `Reactor`, `ServiceManager`,
  `EditDistance`).

Field values and index values are opaque bytes; the serialization of a compound index value is a function parameter.
Clock readings are parameters. `dafny verify dfyconfig.toml` checks the whole project.

## Where the code does less than it seems to

Each of these is stated with the condition under which the code does meet the property, or with a concrete case.

* `VersionedObjectsOfMultiType::add` is described as doing nothing when it returns false, but it stores the bytes first, so
  a duplicate version replaces the stored value; and an `add` above a deletion marker revives the object
  (`MultiTypeObjects.VersionedObjectsOfMultiType.Add`).
* A version that a later one hides is checked when the minimum id passes it, once. If it is still needed then, because the
  version that hides it is above the minimum, it is not checked again, and stays until the object is written again
  (`MultiTypeObjects.CheckedTooEarly`). Each write has the version it hides collected once the minimum has reached the
  write, if that check is still due (`MultiTypeObjects.WriteAndCollect`).
* A view closed at a version before one is opened there leaves a reference that counts for nothing and is never given up
  (`SystemSpecs.ReferencedExactly`).
* A subscription sends the data of the objects listed in the type's existence index, and the client then has a field
  right exactly if that made up all the difference (`SubscriptionSnapshot.SnapshotMirrors`). Two things can be in the way.
  A client with an older subscription receives whole transactions, including writes to types it follows only later; if
  such an object is deleted in between, the later subscription leaves a ghost of it
  (`SubscriptionSnapshot.GhostObjectAfterSubscription`). And nothing keeps a client from assigning a field of an object
  that is not listed, or no longer; the value is stored, but never sent (`Listings.UnlistedFieldIsMissed`). As long as
  every transaction respects the listing, only leftovers matter (`Listings.TypeDef.CommitKeepsListed`,
  `Listings.TypeDef.ListedSuffices`), and a client can see to that without a race by looking whether an object exists
  before it assigns one of its fields (`Listings.CommitCarefully`).
* An object that joins a type while a large subscription is being served is sent, but not sent again when it is written
  later (`LargeSubscriptions.JoiningObjectGoesStale`; exactly when, `LargeSubscriptions.LargeSubscription.OutdatedWereOverlooked`).
  Objects there at the start are always delivered up to date. The channel that was sent outdated data is given up; the
  server and all other channels keep what is proved of them as long as the client of that channel sends no index change
  that contradicts the indices.
* Nothing makes the server check that the index changes of a request agree with its indices. A request that passes every
  check and does not agree raises version numbers and writes values and some index sets, until a store assertion fails,
  with nothing logged or sent; where none fails, an object ends up under two values of an index. A client that holds
  outdated data, or a ghost of a deleted object, sends such a request through the ordinary object types when it assigns
  an indexed field: the run `Breakdowns.GhostClientBreaksServer` ends with a stored value nobody committed. Unless a
  request is refused as too old, the server stays valid exactly if it refuses it or the changes agree with the committed
  indices (`CommitProtocol.Server.CompleteTransaction`); for the transaction of a view, exactly if each entry it moves
  was right in its snapshot (`Commits.HandledExactly`), which is certain if what it read was right (`Commits.Commit`).
  The server can check this beforehand with its own store (`Runs.FindContradiction`).
* Assigning an indexed field through a read-only view throws, but has by then taken the object out of the view's index
  (`DatabaseObjectTypes.ObjectType.SetFieldValue`, `DatabaseObjectTypes.ReadOnlyAssignmentLosesEntry`).
* Deleting an object through a read-only view throws as well, after the object has left the indices over one field
  (`DatabaseObjectTypes.ObjectType.Delete`).
* After a calculation that raises, the reactor waits on the keys of an earlier calculation, and has dropped the changes
  to them from before the failed attempt, but for those whose handler call got hold of the new queue
  (`Reactors.WakeupsAfterFailure`, `Reactors.FailureSwallowsWakeup`).
* The two stores report different new and dropped sets when an empty list names an absent set
  (`Persistence.StoresReportTheSame`); the server never sends such lists.
* Prerequisites are always sent empty, because the function that computes them discards its result; and the server would
  look up only those that are also written (`CommitProtocol.PrerequisitesHold`).
* A service that already has its target count is passed over, and keeps a stale `unbootable_count`
  (`ServiceManagers.ServiceManager.CreateInstanceRecords`). A child spawned by an instance bypasses the host limits
  (`ServiceManagers.ServiceManager.SpawnChild`).
* A length of 2^31 or more is a negative number to the Python reader, which then takes the end of its buffer for the
  start of the message; only the messages before it are safe (`MessageBuffers.MessageBuffer.Write`).
* The C++ reader holds an empty message back until more bytes arrive (`Framing.CppDeliversAll`).

## Model

| member | source | states |
|---|---|---|
| VersionedIdSets.VersionedIdSet.IsActive | object_database/VersionedIdSet.hpp:99-134 | at or above the guaranteed lowest id, the answer is the object's membership at that transaction; below it the query throws |
| VersionedIdSets.VersionedIdSet.NextTransactionToMoveForwardOn | object_database/VersionedIdSet.hpp:53-59 | the first transaction that still has an event, or none |
| VersionedIdSets.VersionedIdSet.Empty | object_database/VersionedIdSet.hpp:45-47 | true exactly when neither map nor the base set holds anything |
| VersionedIdSets.VersionedIdSet.LookupNext | object_database/VersionedIdSet.hpp:164-208 | returns the least object above `o` that is active at `t`, by merging two ordered sources and skipping inactive objects |
| VersionedIdSets.VersionedIdSet.LookupFirst | object_database/VersionedIdSet.hpp:153-162 | returns the least active object, so repeated next calls list exactly the active set in ascending order |
| VersionedIdSets.VersionedIdSet.LookupOne | object_database/VersionedIdSet.hpp:136-151 | returns an object exactly when it is the only active one; below the lowest id it throws if there is any candidate |
| VersionedIdSets.VersionedIdSet.Add | object_database/VersionedIdSet.hpp:210-221 | the object is a member from `t` on; every other membership at every transaction is unchanged; the two maps stay transposes |
| VersionedIdSets.VersionedIdSet.Remove | object_database/VersionedIdSet.hpp:223-234 | the object is no member from `t` on; nothing else changes |
| VersionedIdSets.VersionedIdSet.MoveGuaranteedLowestIdForward | object_database/VersionedIdSet.hpp:61-97 | compaction keeps every membership at or above `t`, never increases the total entry count, and returns the first remaining transaction |
| VersionedIdSets.VersionedIdSet.TotalEntryCount | object_database/VersionedIdSet.hpp:263-271 | counts the base set and every recorded event |
| VersionedIdSets.EventCountIsSize | object_database/VersionedIdSet.hpp:263-271 | the count compaction never increases is the number of pairs of a transaction and an object |
| VersionedIdSets.FoldKeepsMembers | object_database/VersionedIdSet.hpp:71-92 | folding the first transaction's events into the base set changes no membership from that transaction on |
| VersionedIdSets.BaseIsMembership | object_database/VersionedIdSet.hpp:99-134 | with no event left at or below `t`, the base set is the membership at `t` |
| VersionHistory.WithValueReads | object_database/VersionedObjectsOfMultiType.hpp:320-386 | adding a version changes exactly the reads between it and the object's next version |
| VersionHistory.WithDeletionReads | object_database/VersionedObjectsOfMultiType.hpp:275-318 | a deletion marker hides the object exactly from its transaction on |
| VersionHistory.CollectedKeepsReads | object_database/VersionedObjectsOfMultiType.hpp:223-273 | collecting at a level changes no read at or above it, objects removed whole included |
| VersionHistory.CollectedAbove | object_database/VersionedObjectsOfMultiType.hpp:239-255 | cutting a chain below its last version not above the level is what collection of a live object amounts to |
| VersionChain.LinksAreInverse | object_database/VersionedObjectsOfMultiType.hpp:91-109 | following a link and then the opposite one leads back, strictly up or down in between |
| VersionChain.InsertKeepsChained | object_database/VersionedObjectsOfMultiType.hpp:349-384 | linking a version in between its neighbours keeps every object's links an increasing chain from its minimum to its maximum |
| VersionChain.UnlinkKeepsChained | object_database/VersionedObjectsOfMultiType.hpp:388-432 | joining the neighbours of a dropped version keeps all chains |
| MultiTypeObjects.VersionedObjectsOfMultiType.BestTransactionId | object_database/VersionedObjectsOfMultiType.hpp:133-157 | returns the greatest version of the object not above the query, found by walking the chain down |
| MultiTypeObjects.VersionedObjectsOfMultiType.SerializedObjectDataAtTid | object_database/VersionedObjectsOfMultiType.hpp:499-513 | returns what the history says a reader at that transaction sees |
| MultiTypeObjects.VersionedObjectsOfMultiType.ExistsAtTransaction | object_database/VersionedObjectsOfMultiType.hpp:159-171 | true exactly when the reader sees a value |
| MultiTypeObjects.VersionedObjectsOfMultiType.Add | object_database/VersionedObjectsOfMultiType.hpp:320-386 | the new history is the old one with the value put in, out of order too; exactly the older of the new version and the last one is queued for a check; when it returns false the bytes are replaced all the same |
| MultiTypeObjects.VersionedObjectsOfMultiType.LinkVersion | object_database/VersionedObjectsOfMultiType.hpp:325-386 | a new version is linked between its neighbours, and exactly the older of it and the last one is queued; an existing one changes no link |
| MultiTypeObjects.VersionedObjectsOfMultiType.MarkDeleted | object_database/VersionedObjectsOfMultiType.hpp:275-318 | marks the object deleted, exactly if its last version is an older value, and queues exactly that value for a check |
| MultiTypeObjects.VersionedObjectsOfMultiType.DropObjectVersion | object_database/VersionedObjectsOfMultiType.hpp:388-432 | removes one version from all maps and no other, keeping the chains |
| MultiTypeObjects.VersionedObjectsOfMultiType.RemoveLowestIfPossible | object_database/VersionedObjectsOfMultiType.hpp:223-256 | the new history is the old one with this object collected at the guaranteed lowest id |
| MultiTypeObjects.VersionedObjectsOfMultiType.RemoveObject | object_database/VersionedObjectsOfMultiType.hpp:258-273 | removes every version of one object and nothing else |
| MultiTypeObjects.VersionedObjectsOfMultiType.MoveGuaranteedLowestIdForward | object_database/VersionedObjectsOfMultiType.hpp:111-131 | collects exactly the objects queued at a version below the new lowest id, and leaves nothing of them that readers at or above it cannot see; exactly those checks are consumed |
| MultiTypeObjects.Registered | object_database/VersionedObjectsOfMultiType.hpp:434-436 | an object is queued at a version exactly if it was before or is registered there now |
| MultiTypeObjects.WriteAndCollect | object_database/VersionedObjectsOfMultiType.hpp:111-131 | once the lowest id has reached a write, nothing is left of the object that a version up to there hides; once it has reached its deletion, nothing is left at all |
| MultiTypeObjects.CollectedLeavesNothing | object_database/VersionedObjectsOfMultiType.hpp:223-273 | of a checked object no version is left that another one up to the level hides, nor a deletion up to the level |
| MultiTypeObjects.CheckedTooEarly | object_database/VersionedObjectsOfMultiType.hpp:111-131 | a run in which a version is checked while it is still needed, and is never checked again |
| AllVersionedObjects.VersionedObjects.AddObjectVersion | object_database/VersionedObjects.hpp:54-59 | only this field's history changes, and the field is queued for collection |
| AllVersionedObjects.VersionedObjects.SerializedObjectDataAtTid | object_database/VersionedObjects.hpp:42-44 | reads one field's history at a transaction |
| AllVersionedObjects.VersionedObjects.MarkObjectVersionDeleted | object_database/VersionedObjects.hpp:61-66 | only this field's history changes, and the field is queued for collection |
| AllVersionedObjects.VersionedObjects.IndexAdd | object_database/VersionedObjects.hpp:105-109 | the object is in the index from `t` on; other objects and indices are unchanged |
| AllVersionedObjects.VersionedObjects.IndexRemove | object_database/VersionedObjects.hpp:111-115 | the object is out of the index from `t` on; other objects and indices are unchanged |
| AllVersionedObjects.VersionedObjects.IndexContains | object_database/VersionedObjects.hpp:94-103 | answers membership at any transaction at or above the horizon, for unknown indices too |
| AllVersionedObjects.VersionedObjects.IndexLookupNext | object_database/VersionedObjects.hpp:83-92 | the least object above `o` that the index holds at `t` |
| AllVersionedObjects.VersionedObjects.MoveGuaranteedLowestIdForward | object_database/VersionedObjects.hpp:117-143 | exactly the queued fields are collected, no read or membership at or above `t` changes, and index compaction is complete: no index keeps an event below `t`, and no compacted one is kept empty; if `t` is at or above all versions and every hidden one awaits its check, so is the collection of fields: nothing stays hidden by a version below `t` |
| Database.LaterTransactionsInvisible | object_database/DatabaseConnectionState.hpp:57-91 | no transaction numbered above `v` can be seen at `v` |
| Database.FieldUntouched | object_database/server.py:1215-1220 | a field nobody wrote in between reads the same at both transactions |
| Database.IndexUntouched | object_database/server.py:1215-1220 | an index value nobody listed in between has the same members at both transactions |
| Database.MirrorsStep | object_database/server.py:1330-1376 | passing on every transaction that touches a field keeps a mirror of it, whatever else is passed on or not |
| Database.ObjectMirrorsStep | object_database/server.py:1330-1376 | passing on every transaction that writes to an object or lists it keeps it right at the client, whatever else is passed on or not |
| Database.InStepAppend | object_database/server.py:1365-1376 | a channel stays deliverable when a message with a new number, or one repeating what is stored, is appended |
| Database.LastWriteTells | object_database/database_connection.py:699-704 | what a channel says for the latest number is what the server stores, so data repeated for that number agrees |
| Replica.DatabaseConnectionState.constructor | object_database/DatabaseConnectionState.hpp:37-43 | an empty replica satisfies the invariant |
| Replica.DatabaseConnectionState.IncomingTransaction | object_database/DatabaseConnectionState.hpp:57-91 | every field read and index membership at or above the minimum id is what the log with the transaction appended says |
| Replica.DatabaseConnectionState.IncrefVersion | object_database/DatabaseConnectionState.hpp:105-107 | adds one reference and collects nothing |
| Replica.DatabaseConnectionState.DecrefVersion | object_database/DatabaseConnectionState.hpp:109-116 | the count at this version is one lower and no other count changes; a version is referenced no more once its count is zero; the minimum id moves exactly to the oldest referenced version or the current one, if higher |
| Replica.Released | object_database/DatabaseConnectionState.hpp:109-116 | one close takes one reference, at this version only, and drops the version exactly when none is left |
| Replica.NewMinimum | object_database/DatabaseConnectionState.hpp:142-154 | the minimum id never falls, rises to no more than the current id and every referenced version, and rises to one of them unless it is there already |
| Replica.DatabaseConnectionState.Cleanup | object_database/DatabaseConnectionState.hpp:128-136 | the current id becomes the highest observed, and only a higher one triggers collection |
| Replica.DatabaseConnectionState.CheckMinId | object_database/DatabaseConnectionState.hpp:142-154 | raises the minimum id as references allow and collects below it, keeping every read at or above it |
| Replica.AfterWriteReads | object_database/DatabaseConnectionState.hpp:63-77 | one write or deletion changes exactly the reads of its object from its transaction on |
| Replication.RunWithOpenView | object_database/DatabaseConnectionState.hpp:105-154 | through any run of deliveries, views opening and closing, and collection, every field and index reads the same at a version while more views were opened there than closed; every reference count is the opens minus the closes; the minimum id never passes the version |
| Replication.MinimumStaysBelow | object_database/DatabaseConnectionState.hpp:142-154 | a referenced version is never passed by the minimum id |
| Replication.ApplyWithoutViews | object_database/VersionedObjects.hpp:117-143 | with no view open, of every object only the last version is kept, and none of a deleted one, but for what the latest transaction has hidden |
| Replication.ClientSnapshotIsServerState | object_database/server.py:1155-1376 | every field read and index membership the channel can rely on is, at any kept snapshot, the server's committed state after that transaction |
| Replication.NextMessageIsAllowed | object_database/database_connection.py:533-543 | the next message of a channel always meets what the replica needs to apply it |
| Replication.CatchUp | object_database/database_connection.py:533-543 | a client that applies all it was sent reads exactly what is committed now, for every field and index it can rely on |
| Runs.RunSystem | object_database/server.py:398-1376 | every mixed run of requests, connections, subscriptions, batches, version collection, deliveries and views is a run of the specified transitions, up to the first request that contradicts the indices; nothing committed, sent or promised is taken back; references count the views opened and not closed, and a version is kept while there are any; the client reads everything it can rely on as committed |
| Runs.RequestStep | object_database/server.py:398-1376 | each request does exactly what is specified: it is refused if too old, from the future, in conflict or with prerequisites unmet, and otherwise becomes the next transaction and is sent to its followers; a subscriber is sent the committed data of the listed objects, follows the fields, and can rely on exactly what it then has right |
| Runs.BatchStep | object_database/server.py:514-619 | each step of the subscription thread changes nothing the clients see but, at the end, by sending what is committed of all initial objects and something of every object listed by now, and following the fields or the objects; the observed channel is sent only what is all still so |
| Runs.FindContradiction | object_database/server.py:1155-1263 | tells before the call, from the store and the version numbers, whether a request would pass every check and break the indices |
| Runs.SubmitContradiction | object_database/server.py:1251-1281 | submitting such a request leaves the server invalid |
| Runs.ClientStep | object_database/DatabaseConnectionState.hpp:57-154 | each delivery applies the next message, each view opened adds one reference and each view closed takes one, and the client stays in step with its channel |
| Runs.TakeStep | object_database/server.py:398-1376 | any one step of server or client is a specified transition, and leaves the client in step with its channel |
| Runs.SettledReads | object_database/database_connection.py:533-543 | with nothing under way for a snapshot, what the client can rely on reads as committed |
| Runs.ObjectReads | object_database/database_connection.py:533-543 | an object the channel has right reads as committed, at every snapshot kept and for which nothing is under way |
| SystemSpecs.RunIsCarried | object_database/server.py:1333-1351 | if no submitted transaction changes an index without one of its fields, a client following the fields can rely on the indices throughout a run |
| SystemSpecs.RunGrows | object_database/server.py:398-1376 | between any two points of a run nothing committed, sent or promised is taken back, and what is committed has new numbers |
| SystemSpecs.ServedInRun | object_database/server.py:417-477 | a subscription in the middle of a run, with everything listed and no leftovers at the client, earns it a field or an index it can rely on for the rest of the run |
| SystemSpecs.ServedInBatches | object_database/server.py:591-610 | so does one served in batches, from its last batch on |
| SystemSpecs.RefsCounted | object_database/DatabaseConnectionState.hpp:105-116 | over any run the count at each version grows by the views opened there minus those closed |
| SystemSpecs.ReferencedExactly | object_database/DatabaseConnectionState.hpp:105-116 | in a run from no references a version is referenced exactly while opens and closes of it differ, or if it was closed too often before it was last opened |
| SystemSpecs.FollowedInRun | object_database/server.py:1330-1376 | an object a client has right when it comes to follow it is right at the client for the rest of the run, whatever happens |
| SystemSpecs.ServedObjectInRun | object_database/server.py:591-610 | so is every object listed under an index value when a batched subscription to it began, if its data made up all the difference |
| Runs.CommittedStays | object_database/server.py:1167-1168 | later commits change no earlier state |
| Runs.AgreesIsConsistent | object_database/persistence.py:60-86 | whether index changes agree with the committed indices can be seen from the store exactly |
| Runs.SnapshotIsTypeData | object_database/server.py:479-512 | what is read off the store for a type is what is committed of the objects its index lists |
| Runs.StartSystem | object_database/server.py:398-415 | a new server, channel and client are in step, and the stores of the client are empty |
| Runs.RunFromStart | object_database/server.py:398-1376 | the same of every run from an empty server and client |
| Persistence.InMemoryPersistence.SetSeveral | object_database/persistence.py:60-136 | values, sets and reported changes are those of the specification exactly when every add is new and every removal present; otherwise it throws with all values stored and each set somewhere between what it was and what it was to be |
| Persistence.InMemoryPersistence.Set | object_database/persistence.py:47-58 | stores one value, or deletes it if there is none |
| Persistence.RedisPersistence.Get | object_database/persistence.py:164-190 | returns what Redis holds, and keeps the cache a true copy |
| Persistence.RedisPersistence.GetSetMembers | object_database/persistence.py:218-238 | returns what Redis holds, and keeps the cache a true copy |
| Persistence.RedisPersistence.SetSeveral | object_database/persistence.py:240-296 | Redis ends as specified whether or not it throws, and the cache agrees with it if it does not; the cache's removal of an absent member throws |
| Persistence.StoresReportTheSame | object_database/persistence.py:108-136 | the two stores report the same new and dropped sets exactly when no empty list names an absent set |
| Persistence.CacheFollows | object_database/persistence.py:262-296 | a cache holding every set touched, updated like Redis, still agrees with it and reports the same changes |
| ServerStore.ConsistentIsAccepted | object_database/persistence.py:60-86 | index changes that agree with the indices pass the store's assertions |
| ServerStore.AcceptedChanges | object_database/persistence.py:60-86 | index changes that pass the assertions add only what is not there and remove only what is |
| ServerStore.InconsistentShows | object_database/persistence.py:60-86 | an update that passes the assertions and leaves a reverse map that holds was consistent |
| ServerStore.IndicesStayHeld | object_database/server.py:1263 | applying a transaction's index lists keeps the index sets equal to the database's memberships |
| ServerStore.ReverseStaysHeld | object_database/server.py:951-967 | the reverse map sends a field and object to a value exactly when the object is in that value's set, after every consistent update |
| ServerStore.ValuesStayListed | object_database/server.py:1265-1281 | recording the sets that appeared and dropping those that vanished keeps the metadata exactly the values in use |
| ServerStore.FirstUpdate | object_database/server.py:1260-1263 | after the first store call fields, indices and reverse map hold the new database and only the metadata lags |
| ServerStore.SecondUpdate | object_database/server.py:1265-1281 | after the second store call the whole layout holds the new database |
| SubscriptionSnapshot.IndexValuesToSetAdds | object_database/database_connection.py:724-760 | the transposed map lists an object under a value exactly when the object's entry has that value |
| SubscriptionSnapshot.SnapshotMirrors | object_database/server.py:767-836 | after a subscription the client has a field or index right from then on exactly if, besides what was sent, it already agreed with the server on it and held no wrong entry |
| SubscriptionSnapshot.DataMirrors | object_database/server.py:815-836 | the same of any data that says what is committed, however it was built up |
| SubscriptionSnapshot.SnapshotIsData | object_database/server.py:767-836 | what is read off the store says what is committed |
| SubscriptionSnapshot.SnapshotKeepsMirrors | object_database/server.py:767-836 | subscription data never disturbs a field already mirrored |
| SubscriptionSnapshot.DataKeepsObject | object_database/server.py:767-836 | nor does it disturb an object the client has right |
| SubscriptionSnapshot.DataGivesObject | object_database/server.py:767-836 | the client has an object right after its data was sent exactly if that made up all the difference |
| SubscriptionSnapshot.GhostObjectAfterSubscription | object_database/server.py:1333-1376 | a concrete run in which an object deleted before a second subscription stays visible to the client |
| SubscriptionSnapshot.UnlistedFieldIsNotSent | object_database/server.py:767-836 | a stored value of an object no index lists is missing after a subscription, even for a client that started out empty |
| CommitProtocol.VersionsDetectChanges | object_database/server.py:1215-1220 | at or above the minimum acceptable version, a version number is above the request's exactly if the key changed since |
| CommitProtocol.ConflictsExactly | object_database/server.py:1215-1220 | a request conflicts exactly if a field it names was written, or an index it names listed, after the version it names |
| CommitProtocol.ForgettingStaysTracked | object_database/server.py:1049-1082 | forgetting a version number and raising the minimum to it never hides a change |
| CommitProtocol.CommitStaysTracked | object_database/server.py:1251-1257 | marking the written keys keeps every version number the last change of its key |
| CommitProtocol.CommitStaysStamped | object_database/server.py:1251-1257 | every key for which nothing is committed has a timestamp, so that its version number can be forgotten |
| CommitProtocol.CommitStaysSerializable | object_database/server.py:1215-1220 | replaying the accepted transactions in order reproduces every recorded read |
| CommitProtocol.HalfWayIsNotTracked | object_database/server.py:1251-1263 | after an update that stopped half way some version number is that of no committed transaction |
| CommitProtocol.BroadcastStaysInOrder | object_database/server.py:1333-1376 | passing a transaction on to those who follow a field or object in it keeps every mirror, of indices too, and every channel deliverable |
| CommitProtocol.CurrentDataStaysInOrder | object_database/server.py:767-836 | data read off the store keeps every mirror and channel in order, and makes the channel have exactly those fields right for which it makes up all the difference |
| CommitProtocol.StaleChannelIsIgnored | object_database/server.py:767-836 | outdated data sent to one channel leaves all others in order |
| CommitProtocol.FollowingStaysInOrder | object_database/server.py:698-713 | whoever has a field right and follows it from now on keeps having it right; an index counts as followed through the fields of its type |
| CommitProtocol.Server.FindConflict | object_database/server.py:1215-1220 | returns a checked key with a higher version number, or none if there is none |
| CommitProtocol.Server.IndexReverseLookupKvs | object_database/server.py:951-967 | removed objects lose their reverse entry unless they get a new one, added objects get theirs |
| CommitProtocol.Server.GroupByField | object_database/server.py:1265-1281 | index keys are grouped into the values per index field |
| CommitProtocol.Server.StoreTransaction | object_database/server.py:1259-1281 | a consistent transaction is stored, and the store then holds the database with it applied; of any other the values are written all the same, it throws unless the assertions accept the index changes, and the store then never holds the outcome |
| CommitProtocol.Server.Broadcast | object_database/server.py:1330-1376 | exactly the channels that follow a field or index the transaction changes, or an object it writes to or lists, get it; all mirrors hold and every channel stays deliverable |
| CommitProtocol.SentExactly | object_database/server.py:1330-1376 | who is sent a transaction, in terms of its writes and lists alone |
| CommitProtocol.Server.CommitAndBroadcastNewTransaction | object_database/server.py:1155-1376 | a request conflicts exactly if a key it depends on changed since its version; the server stays valid exactly if the request is refused or its index changes agree with the indices, and it is then committed or refused as it should; otherwise its values are stored all the same; the number is used up either way, only a commit is sent to anyone, and subscriptions and mirrors stay as they are |
| CommitProtocol.Server.Accept | object_database/server.py:1251-1376 | a request without conflicts becomes the next logged transaction and is sent to its followers, and all server invariants are kept, exactly if its index changes agree with the indices; if not, its values are stored all the same |
| CommitProtocol.Server.CompleteTransaction | object_database/server.py:908-949 | as above, with requests older than the minimum acceptable version refused and nothing changed; exactly the keys a committed request touches get the present time |
| CommitProtocol.Server.GarbageCollect | object_database/server.py:1049-1082 | exactly the keys for which nothing is committed and that last changed before the threshold are forgotten, the minimum rises to cover them, and conflict detection stays exact; whatever is left with nothing committed is recent |
| CommitProtocol.Server.AddConnection | object_database/server.py:398-415 | records the connection object as existing with its heartbeats, and nothing else, sends that to whoever follows it, and opens a channel with nothing sent |
| CommitProtocol.Server.FollowObjects | object_database/server.py:677-682 | the channel follows the objects from now on, and nobody else follows anything else; nothing else changes |
| CommitProtocol.Server.HandleSubscriptionInForeground | object_database/server.py:417-477 | sends the current data of the type's objects; the channel has exactly those fields and indices right for which it makes up all the difference, and can rely on them |
| CommitProtocol.Server.SendSubscriptionData | object_database/server.py:815-836 | current data keeps the channel in order and makes it have exactly those fields right for which it makes up all the difference; any other data makes this channel, and no other, unreliable |
| CommitProtocol.Server.FollowFields | object_database/server.py:698-713 | registers the channel for the fields, and lets it rely on those fields and indices of the type it has right |
| LargeSubscriptions.LargeSubscription.constructor | object_database/server.py:526-560 | takes the listed objects as the initial set and starts collecting committed transactions |
| LargeSubscriptions.LargeSubscription.CommitMeanwhile | object_database/server.py:1372-1373 | a request completed between two batches, whether accepted or refused, is decided, logged and sent as ever and keeps the subscription's invariant exactly if the server can handle it |
| LargeSubscriptions.LargeSubscription.ConnectMeanwhile | object_database/server.py:398-415 | so does a new connection |
| LargeSubscriptions.LargeSubscription.SubscribeMeanwhile | object_database/server.py:417-477 | so does a small subscription of any channel |
| LargeSubscriptions.LargeSubscription.GarbageCollectMeanwhile | object_database/server.py:1049-1082 | so does forgetting version numbers |
| LargeSubscriptions.LargeSubscription.Recheck | object_database/server.py:784-810 | rewritten initial objects and joining objects are back on the list |
| LargeSubscriptions.LargeSubscription.TakeBatch | object_database/server.py:812-813 | takes a full batch or all that is left, each object once |
| LargeSubscriptions.LargeSubscription.SendPartialSubscription | object_database/server.py:767-836 | what is due, a full batch of it or all, is sent as stored now and taken off the list; the invariant is kept, and the list shrinks if nothing was committed before the batch |
| LargeSubscriptions.LargeSubscription.InitialSetDelivered | object_database/server.py:514-619 | however commits interleave, at completion nothing sent for an initial object was overwritten since, and every listed object was sent |
| LargeSubscriptions.LargeSubscription.OutdatedWereOverlooked | object_database/server.py:784-810 | at completion an object sent is outdated exactly if some write to it since did not put it back on the list; it was then not there at the start and never joined again |
| LargeSubscriptions.LargeSubscription.UpToDateIsStored | object_database/server.py:815-836 | an object not overwritten since it was sent has, at the client, every stored field value and index value |
| LargeSubscriptions.LargeSubscription.CompletionData | object_database/server.py:591-610 | the client is told exactly what is committed of the initial objects, and something of every object listed by now |
| LargeSubscriptions.LargeSubscription.Complete | object_database/server.py:591-610 | the server keeps its invariants whatever was sent; the channel, followed by fields for a type and by objects for an index value, ends up as if served at once unless something sent is outdated, and then it alone is given up |
| LargeSubscriptions.LargeSubscription.Drain | object_database/server.py:563-613 | the loop ends once commits pause |
| LargeSubscriptions.JoiningObjectGoesStale | object_database/server.py:786-810 | a run of the subscription in which an object joins, is sent, is rewritten, and is left outdated at the client |
| LargeSubscriptions.Rechecked | object_database/server.py:786-810 | exactly the written initial objects and the joining objects are put back on the list |
| Views.View.constructor | object_database/View.hpp:37-49 | a new view shows its snapshot and has read nothing |
| Views.View.GetField | object_database/View.hpp:120-142 | returns the value of the overlay, and records the read exactly when the caches did not answer it |
| Views.View.FieldExists | object_database/View.hpp:152-170 | true exactly when the overlay has the field |
| Views.View.SetField | object_database/View.hpp:172-206 | refused exactly for a read-only view or a deleted field; otherwise the overlay changes at this key only, and the caches stay disjoint with new writes absent from the snapshot |
| Views.View.IndexAdd | object_database/View.hpp:208-230 | the view shows the object in the index; refused exactly for a snapshot member still shown; adds stay outside and removes inside the snapshot |
| Views.View.IndexRemove | object_database/View.hpp:232-254 | the view no longer shows the object; refused exactly if neither the snapshot nor the view lists it |
| Views.View.Merged | object_database/View.hpp:300-353 | the merge of two ordered sources with its skip loop ends at the next object of (snapshot minus removes) union adds |
| Views.View.IndexLookupFirst | object_database/View.hpp:293-324 | the first object the view shows, recorded as an index read |
| Views.View.IndexLookupNext | object_database/View.hpp:326-353 | the next object the view shows, recorded as an index read |
| Views.View.LookupAll | object_database/PyDatabaseObjectType.cpp:1147-1159 | lists exactly the objects shown, ascending and without repeats |
| Views.View.LookupUnique | object_database/PyDatabaseObjectType.cpp:1108-1125 | returns an object exactly if it is the only one, nothing if there is none, and otherwise throws |
| Views.View.ExtractedIsCurrent | object_database/PyView.hpp:283-369 | the extracted changes applied to the snapshot give exactly what the view shows |
| DatabaseObjectTypes.ObjectType.CalcCurIndexValue | object_database/PyDatabaseObjectType.cpp:549-582 | the encoded index value, or none if a field is missing; everything that settles it is recorded as read or cached |
| DatabaseObjectTypes.ObjectType.RemoveFromIndices | object_database/PyDatabaseObjectType.cpp:516-529 | the object leaves exactly its entries in the indices over the field, and the removal never fails |
| DatabaseObjectTypes.ObjectType.AddToIndices | object_database/PyDatabaseObjectType.cpp:533-546 | the object enters exactly the entries of its current values, and the addition never fails |
| DatabaseObjectTypes.ObjectType.SetFieldValue | object_database/PyDatabaseObjectType.cpp:506-547 | in a transaction every index stays in step with the fields; a refused assignment in a read-only view leaves them in step exactly if the object had no entry |
| DatabaseObjectTypes.ObjectType.Delete | object_database/PyDatabaseObjectType.cpp:749-793 | deletes all fields exactly if the view may write, the object exists and none was deleted before; in a transaction indices stay in step even when it stops half way; a read-only view changes no field but loses the object from the indices over one |
| DatabaseObjectTypes.WalkedSettles | object_database/PyDatabaseObjectType.cpp:559-570 | two states that agree on the fields read up to the first missing one agree on the index value |
| DatabaseObjectTypes.ObjectType.ChangesComeWithWrites | object_database/PyDatabaseObjectType.cpp:506-547 | a changed index entry comes with a write to one of that index's fields of the same object |
| DatabaseObjectTypes.ObjectType.CommitKeepsIndexed | object_database/PyDatabaseObjectType.cpp:506-582 | over any state that still holds what was read, the transaction's index changes are consistent and leave every index in step |
| DatabaseObjectTypes.ObjectType.ConsistentExactly | object_database/PyDatabaseObjectType.cpp:506-582 | the index changes of a view agree with a database exactly if each object they move had the same entry in its snapshot |
| DatabaseObjectTypes.ReadOnlyAssignmentLosesEntry | object_database/PyDatabaseObjectType.cpp:515-531 | a concrete read-only view whose index loses an entry to a refused assignment |
| Commits.FaithfulIsIndexed | object_database/view.py:113-141 | a view that shows committed fields has its indices in step |
| Commits.ReadsStillHold | object_database/server.py:1215-1220 | without a conflict, everything the view read is still so at commit |
| Commits.CommitStaysIndexed | object_database/server.py:1155-1281 | committing a sound view keeps every committed state's indices in step with its fields |
| Commits.OtherTypesStayIndexed | object_database/server.py:349-371 | a transaction touching no field of the types, such as the server's own for a connection, keeps every committed state's indices in step |
| Commits.Commit | object_database/view.py:113-141 | for any view: the server stays valid exactly if it can handle the index changes, and then accepts it exactly if recent enough and nothing read has changed; if what was read was right, it always stays valid and all indices are kept; every index change is carried by a change of one of its fields; if it does not stay valid, the written values are stored all the same |
| Commits.HandledExactly | object_database/persistence.py:60-86 | the server can handle a view's index changes exactly if it refuses it anyway, or each entry moved was right in the snapshot |
| Commits.FaithfulReadsTruly | object_database/view.py:84-95 | a view that shows the fields of a type as committed reads truly |
| Breakdowns.GhostClientBreaksServer | object_database/server.py:1155-1281 | a run in which a client assigns a field of an object that is long deleted, the request passes every check, and the server ends up invalid, with a stored value that was never committed |
| Commits.UploadedRequest | object_database/view.py:131-141 | what the server reassembles is exactly the view's request |
| Commits.CommitsWriteWhatTheyIndex | object_database/server.py:786-792 | client transactions meet what a background subscription relies on |
| Commits.CommitStaysCarried | object_database/PyDatabaseObjectType.cpp:506-547 | a transaction made through object types touches no index without one of its fields |
| Commits.AlwaysCarriedIsCarried | object_database/server.py:698-713 | a channel following the fields of an index is sent all its changes, though indices over several fields have no subscribers of their own |
| Commits.ClientViewIsFaithful | object_database/view.py:84-95 | a view on a client that follows the fields concerned, indices by their fields, shows the server's state at its version |
| Listings.TypeDef.ListedSuffices | object_database/server.py:479-512 | if everything stored for a type belongs to listed objects, a subscription makes up all the difference exactly if the client has no leftovers |
| Listings.TypeDef.ListedAndMoreSuffices | object_database/server.py:591-610 | so it does with data of objects that are not listed any more |
| Listings.TypeDef.CommitKeepsListed | object_database/server.py:1259-1281 | a transaction keeps everything listed exactly if it gives values and entries only to objects listed then and takes everything from those it unlists |
| Listings.TypeDef.CarefulKeepsListed | object_database/PyDatabaseObjectType.cpp:506-582 | a view that looks whether objects exist and deletes them whole keeps everything listed over any state that still holds what it read |
| Listings.TypeDef.ListsIfExists | object_database/PyDatabaseObjectType.cpp:533-546 | an object is listed exactly if it has an existence value |
| Listings.CommitCarefully | object_database/view.py:113-141 | committing a view that looked before it assigned keeps everything listed, whatever was committed in between, if what it read was right |
| Listings.SubscribeToListed | object_database/server.py:417-512 | then a subscriber has every field and index of the type right, and can rely on it, exactly if it had no leftovers, as is certain of a field it was never sent anything of; what it was sent before is kept |
| Listings.NothingSentNothingLeft | object_database/server.py:1333-1351 | a channel that was sent nothing touching a field has no leftovers of it |
| Listings.UnlistedFieldIsMissed | object_database/PyDatabaseObjectType.cpp:419-443 | a run in which a value assigned to an unlisted object is committed and then missed by a subscriber |
| TransactionChunks.CreateTransaction | object_database/database_connection.py:783-926 | for any sizes and thresholds the pieces add up to what was passed in, without empty lists, and end with the completing message; within all thresholds there is a single piece |
| TransactionChunks.SendWrites | object_database/database_connection.py:822-837 | sent and held-back writes are together all of them, and no message has more than the threshold and one |
| TransactionChunks.SendLists | object_database/database_connection.py:839-879 | sent and held-back index lists are together all nonempty ones, and every message sent early was full |
| TransactionChunks.SendKeyVersions | object_database/database_connection.py:881-894 | sent and remaining keys are together all of them |
| TransactionChunks.SendIndexVersions | object_database/database_connection.py:896-908 | sent and remaining indices are together all of them |
| TransactionChunks.ConnectedChannel.HandleTransactionData | object_database/server.py:118-141 | the piece, prerequisites and all, is merged into its own transaction and no other |
| TransactionChunks.ConnectedChannel.ExtractTransactionData | object_database/server.py:143-144 | hands out and forgets one transaction; an unknown one throws |
| TransactionChunks.ConnectedChannel.HandleAll | object_database/server.py:906-914 | the pending transactions after any message sequence are the fold of its messages |
| TransactionChunks.OthersMakeNoDifference | object_database/server.py:118-141 | what is pending for a transaction is gathered from its own pieces alone, however they are mixed with others |
| TransactionChunks.GatheredConcat | object_database/server.py:130-141 | gathering a sequence of pieces is merging what its two parts gather |
| TransactionChunks.ReassembledDespiteOthers | object_database/server.py:118-144 | the server ends up with exactly what the client passed in |
| Framing.HeadersRoundTrip | object_database/message_bus.py:97-98 | every four bytes are the encoding of the length they decode to |
| Framing.LeastSignificantFirst | object_database/message_bus.py:70-79 | a length is written lowest byte first |
| Framing.ChunksDoNotMatter | object_database/message_bus.py:81-126 | parsing a stream in pieces gives what parsing it whole gives |
| Framing.PrefixParses | object_database/message_bus.py:81-126 | a stream that parses does so up to every point |
| Framing.StreamParses | object_database/message_bus.py:70-126 | the frames of any messages parse into exactly these messages with nothing left |
| Framing.CppDeliversAll | object_database/DatabaseConnectionPumpLoop.hpp:322-364 | the C++ reader delivers all messages of a stream exactly if the last is not empty |
| MessageBuffers.MessageBuffer.Encode | object_database/message_bus.py:70-79 | produces the length, the message and perhaps the length again, or throws for a message too long for a signed length |
| MessageBuffers.MessageBuffer.Write | object_database/message_bus.py:81-126 | of any bytes: delivers exactly the messages completed, keeps the unused bytes, and throws exactly when a repeated size is wrong; a length taken for negative spoils no message before it, and without repeated sizes never throws |
| MessageBuffers.MessageBuffer.WriteAll | object_database/message_bus.py:81-126 | any stream of frames in any chunks comes out as the messages in order, with the buffer back in its initial state |
| PumpLoops.DatabaseConnectionPumpLoop.ConsumeReadBytes | object_database/DatabaseConnectionPumpLoop.hpp:322-378 | delivers exactly the messages completed, in order, and keeps the unused bytes |
| PumpLoops.DatabaseConnectionPumpLoop.ConsumeAll | object_database/DatabaseConnectionPumpLoop.hpp:322-378 | any stream of frames in any chunks comes out as the messages, but for an empty one at the end, which is kept; otherwise the reader is back in its initial state |
| PumpLoops.DatabaseConnectionPumpLoop.BufferMessages | object_database/DatabaseConnectionPumpLoop.hpp:146-156 | every message to be sent is buffered as its frame, in order |
| PumpLoops.DatabaseConnectionPumpLoop.WriteAnyPendingDataToSocket | object_database/DatabaseConnectionPumpLoop.hpp:380-414 | however little each write takes, the socket has got a prefix of the frames and the buffer holds the rest; it stalls exactly if something is left, and not before the socket took nothing or no write is left |
| Reactors.StepKeepsInvariant | object_database/reactor.py:259-345 | every step of the three threads keeps each transaction since recording began pending or looked at |
| Reactors.StepKeepsLoads | object_database/reactor.py:259-345 | what was put into the present queue stays there until it is looked at |
| Reactors.StepMissesNothing | object_database/reactor.py:259-345 | every step keeps each transaction since recording began pending, or looked at and naming no key read |
| Reactors.NoWakeupLost | object_database/reactor.py:259-345 | when the reactor is blocked and the present calculation has not failed, any change to any key read in it, after it was read, is queued or about to be |
| Reactors.ReadKeysExactly | object_database/reactor.py:273-300 | the reactor waits on exactly the keys read in the last calculation that succeeded |
| Reactors.WakesExactly | object_database/reactor.py:302-337 | an entry of the queue wakes it exactly if it is a request to stop or changed one of these keys |
| Reactors.RerunsAtOnce | object_database/reactor.py:302-337 | it does not block after a calculation that is to be repeated |
| Reactors.RecordedInRounds | object_database/reactor.py:259-300 | a transaction is recorded exactly from the start of a calculation until the wake-up after it |
| Reactors.WakeupsAfterFailure | object_database/reactor.py:273-300 | after a failed calculation a change to a key since it was read is still to be delivered exactly if its handler call got hold of the present queue or has yet to; every change since the attempt began is |
| Reactors.StopIsDelivered | object_database/reactor.py:169-176 | a blocked reactor that was told to stop has the request in its queue |
| Reactors.DrainedStopStops | object_database/reactor.py:259-297 | a run in which the stop is queued after the flag was looked at and thrown away with the queue, and the reactor still exits |
| Reactors.FailureSwallowsWakeup | object_database/reactor.py:266-302 | a concrete run in which a failed calculation loses the change that triggered it |
| ServiceManagers.ServiceManager.PickHost | object_database/service_manager/ServiceManager.py:540-562 | returns a connected host of a group the service accepts with enough RAM and cores and a free instance slot, or none exactly if every connected host of such a group lacks one of these |
| ServiceManagers.ServiceManager.Boot | object_database/service_manager/ServiceManager.py:583-592 | the instance is recorded with its use, and every safe host stays within its limits |
| ServiceManagers.ServiceManager.BootMissing | object_database/service_manager/ServiceManager.py:565-592 | boots until the target is met or no host takes another; every boot adds one record, on a connected host of a group the service accepts; recorded use grows exactly by what is booted, and other services are untouched |
| ServiceManagers.ServiceManager.ShutDownExcess | object_database/service_manager/ServiceManager.py:597-600 | exactly the target number of records is left, and only the others are asked to shut down; it throws exactly if one of those was deleted in the meantime |
| ServiceManagers.ServiceManager.UpdateService | object_database/service_manager/ServiceManager.py:564-600 | going by records looked up earlier, on return their count is the target with nothing unbootable, or the shortfall is recorded and no host can take another; every safe host stays safe, and every instance added is on a connected host of a group the service accepts; a deleted record to be shut down undoes everything |
| ServiceManagers.ServiceManager.UpdateIfNeeded | object_database/service_manager/ServiceManager.py:535-538 | going by records looked up earlier, the service ends settled unless it had its target and a stale shortfall; it is passed over exactly if it had its target; a deleted record to be shut down undoes everything; other services are untouched |
| ServiceManagers.ServiceManager.LookUpAll | object_database/service_manager/ServiceManager.py:527-533 | of every service exactly the instances that are up, not deleted, not asked to shut down and not owned, each once |
| ServiceManagers.ServiceManager.CreateInstanceRecords | object_database/service_manager/ServiceManager.py:524-538 | whatever stops, is deleted or is recorded between its transactions, each service handled is settled unless it had its target and a stale shortfall, every safe host stays safe, and every instance added is on a host that its service accepts; with nothing in between the pass completes, and the records of each service are its active instances |
| ServiceManagers.ServiceManager.RecordUse | object_database/service_manager/ServiceManager.py:411-419 | recording the actual use keeps safe hosts safe |
| ServiceManagers.ServiceManager.InstanceGone | object_database/service_manager/ServiceManager.py:428-464 | an instance going away counts for no service any more and keeps safe hosts safe |
| ServiceManagers.ServiceManager.SpawnChild | object_database/service_manager/ServiceInstance.py:256-263 | a child keeps its host safe exactly if recorded room and the instance limit allow for it |
| ServiceManagers.LoadShrinks | object_database/service_manager/ServiceManager.py:412-413 | instances that stop being active leave no host with more to carry |
| ServiceManagers.LoadAppend | object_database/service_manager/ServiceManager.py:411-419 | the load of a host is the use of its instances that are up, not deleted and not asked to shut down |
| ServiceManagers.Service.EffectiveTargetCount | object_database/service_manager/ServiceInstance.py:157-164 | none after too many bad boots or for a target of zero or less, at most one for a singleton, and the target otherwise |
| EditDistance.Distance | object_database/util.py:216-232 | the rolling row with its argument swap computes the recursive edit distance |
| EditDistance.NoCheaperScript | object_database/util.py:216-232 | no script turning one string into the other costs less than the distance |
| EditDistance.CheapestScript | object_database/util.py:216-232 | some script costs exactly the distance |
| EditDistance.Symmetric | object_database/util.py:218-219 | the distance is symmetric, which justifies the swap |
| EditDistance.Triangle | object_database/util.py:216-232 | the distance satisfies the triangle inequality |
| EditDistance.ZeroMeansEqual | object_database/util.py:216-232 | the distance is zero exactly for equal strings |

## Left out

- MessageBuffers.MessageBuffer.Write: says nothing of what a stream is cut into after a length taken for negative; that depends on how it is cut into chunks.
- CommitProtocol.Server.CompleteTransaction: of a server that could not handle a request it says which values are stored and that nothing is logged or sent unless the store accepts the changes, but not which index sets were written before the assertion failed. That such a server is not valid is shown for requests that do not add and remove the same entry; views never send those.
- LargeSubscriptions.LargeSubscription.Complete: says nothing of what the one channel that was sent outdated data can still rely on.
- Framing.EncodeLength: is little-endian, where the sources use the byte order of the machine.
- Runs.RunSystem: ends before the first request that is not refused but contradicts the indices (`Runs.SubmitContradiction` says what such a request does), and does not complete a large subscription of the observed channel with outdated data.
- Reactors.NoWakeupLost: covers the threaded loop, not the synchronous `next`, and leaves out the deadlock exception raised for a reactor that read nothing and has no timeout; timeouts may strike at any moment.
- ServiceManagers.ServiceManager.CreateInstanceRecords: nobody changes the configuration of a service, spawns a child or deletes a service or host between its transactions. RAM and cores are real numbers, not floating point.
- The snapshot under a view is modelled as a value; `Replication.RunWithOpenView` is what lets it stand for the replica. What a client builds up from the batches of a subscription is kept beside the sending side, since it is looked at only when the subscription is complete.
- Lazy subscriptions and their priors, and what joining objects add to index-level subscriptions and to the transaction sent to them. A client that creates objects of a type it does not follow comes to follow them; here following objects is a step of its own.
- Several index subscriptions and type subscriptions of one channel served by different threads at once; the background thread serves one at a time.
- The deserialized-value caches and the single-type store, which repeat the chain work on typed instances.
- View watchers, object visibility, lazy loading, and user-defined constructors and destructors of object types.
- Dropped connections, dependent connections, the startup cleanup of dead connections, and the type map.
- Sockets, SSL, pump threads, Redis networking, heartbeats, authentication, logging and statistics.
- The proxy server, web interface, service processes and code generation.
