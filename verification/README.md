# Verification of etcd's state machines

This project models the parts of etcd 3.4 whose correctness spans several
functions, or several goroutines and crashes, and proves what they are for. Each
module stands beside the source files it models; code that changes state in place is
a class or a method with loops, proved against functions whose meaning is proved
separately, and the concurrent protocols are state machines over their steps.

- `KeyHistory`, `KeyIndices`, `TreeIndices`, `TreeRestore`: the multi-version key index.
  The reference is the full list of events of a key. Reads, `since`, compaction, `keep`,
  a compaction of the tree that is interleaved with writers, and the replay of all keys
  when the store is opened.
- `Applying`, `Recovery`, `DataDirectory`: committed entries go to a v2 store and a v3
  backend, snapshots are saved and received, and the process may stop between any two
  writes. Both stores are arbitrary deterministic machines over byte images.
- `ReadyLoop`: the order in which the raft loop writes its log, and what a crash leaves.
- `LinearRead`: readers, the read loop, its notifier and its wake-up channel, with a
  read-index oracle after section 6.4 of Ongaro's Raft dissertation.
- `WatchHistory`, `WatchResume`, `WatchExact`, `WatchStream`: watchers that survive reconnects.
- `Transactions`: nested transactions, evaluated over one flattened path of decisions.
- `Prefixes`, `Heaps`, `LeaseQueues`, `AuthStores`, `Standalone`: prefix ranges, the
  heap of leases, the permission cache, and the forced restart as a single member.
- `Bytes`: byte strings in the order of `bytes.Compare`.

## What does not hold without a condition

Each of these has a lemma with a concrete input and one with the exact condition.

- A Ready that holds a snapshot together with committed entries that are not saved yet
  has its entries and hard state saved before the snapshot record, against the comment
  above that code. A crash in between leaves a log with a hole
  (`ReadyLoop.SnapshotWithUnsavedCommit`), or one whose old entries are taken for
  committed ones (`ReadyLoop.RestartWithWrongEntry`). `ReadyLoop.ReadableExactly` says
  exactly for which Readys no crash point does so. `SavedBeforeApplied`,
  `VoteSurvives`, `NotifiedIsDurable` and `StepKeeps` hold with such Readys and crashes
  in the run.
- The raft loop may delete the database of a snapshot that the apply loop has not
  installed yet; installing it is then a panic (`Recovery.MissingDatabaseReachable`,
  `Recovery.MissingDatabaseExactly`). A restart begins at the later snapshot.
- `removeNeedlessRangeReqs` changes the outcome of a transaction whose dropped range
  asks for a revision in the future or a compacted one: it is rejected where a client
  waits for it and applied elsewhere (`Transactions.DroppingRangesDiffers`,
  `Transactions.DroppingRanges`).
- The checks before the write phase do not see a deletion earlier in the same
  transaction (`Transactions.DeletedBeforeIgnoringPut`), and they pass an empty
  operation, whose response slot is nil when the write phase reads it
  (`Transactions.EmptyOperationPanics`). `Transactions.ChecksMakeWritesTotal` has both
  conditions; the request validation of the server's front end, which is not part of
  this model, rejects such transactions.
- A progress notification before the start revision of a watch, or before what it has
  been sent, lowers its next revision. If the stream fails then, the watch asks for
  those revisions and delivers them (`WatchExact.EarlyProgressRepeats`,
  `WatchExact.RewoundExactly`, `WatchExact.ProgressExactly`). Such notifications are
  sent to watches from a future revision (`etcd/mvcc/watchable_store.go:112-140`,
  `etcd/mvcc/watchable_store.go:497-523`).
- `getIDs` starts from the voters of the snapshot, so a learner that only the snapshot
  knows is not removed by the forced restart (`Standalone.LearnerStays`), and it counts
  learners, so a member that is one gets no vote and raft loses its last voter
  (`Standalone.LearnerGetsNoVote`); `Standalone.VotersExactly` and
  `Standalone.AloneExactly` have the conditions.

Two branches of `compact` and `keep` that remove a tombstone from the available set
cannot be reached; the model proves so at the place where they stand. `restore` keeps
only the main part of the creation revision, which `equal` does not compare.

## Model

| member | source | states |
|---|---|---|
| `KeyHistory.AnnotateMeaning` | etcd/mvcc/key_index.go:82-109 | Creation revision and version of the n-th modification are those of its life in the full event list: the creation is the event after the last earlier tombstone, the version counts the events since |
| `KeyHistory.RevisionOrder` | etcd/mvcc/revision.go:36-44 | Revisions are totally ordered, the main part first |
| `KeyHistory.LookupIsTruth` | etcd/mvcc/key_index.go:154-176 | Searching the annotated items gives the answer defined on the raw event list: not found exactly when the latest event at or before the revision is a tombstone or there is none, else its revision, creation and version |
| `KeyHistory.CompactKeepsReads` | etcd/mvcc/key_index.go:229-258 | Reads at or above the compacted revision do not see the compaction |
| `KeyHistory.CompactTwice` | etcd/mvcc/key_index.go:229-258 | Compacting at r1 and then at r2 >= r1 leaves what compacting at r2 alone leaves, an emptied index included |
| `KeyHistory.CompactExtend` | etcd/mvcc/key_index.go:229-258 | Compacting and then writing leaves the same as writing and then compacting, for writes beyond the compacted revision |
| `KeyHistory.SurvivorsExact` | etcd/mvcc/key_index.go:276-300 | The survivors are exactly the available revisions and those beyond the compacted one, and the first survivor is not a tombstone |
| `KeyHistory.CompactedReplays` | etcd/mvcc/key_index.go:111-127 | What a compaction leaves can be replayed: each survivor continues the one before it |
| `KeyHistory.VisibleRevsMembers` | etcd/mvcc/key_index.go:181-223 | Membership of the reference for since: an item is listed if and only if it is not below the revision and no later item has the same main |
| `KeyHistory.VisibleRevsIncrease` | etcd/mvcc/key_index.go:181-223 | The revisions of since are strictly increasing in main |
| `KeyHistory.VisibleIsHighestSub` | etcd/mvcc/key_index.go:181-223 | A listed revision has the highest sub of its main |
| `KeyHistory.CompactKeepsSince` | etcd/mvcc/key_index.go:181-223 | since at a revision beyond the compacted one does not see the compaction |
| `KeyIndices.KeyIndex.constructor` | etcd/mvcc/key_index.go:75-79 | A new index holds no items |
| `KeyIndices.KeyIndex.Put` | etcd/mvcc/key_index.go:82-109 | Appends one put to the history: continues the open life or starts one, keeps the shape of the generations and sets modified |
| `KeyIndices.KeyIndex.Restore` | etcd/mvcc/key_index.go:111-127 | Starts an index with one item of a given version and creation main |
| `KeyIndices.KeyIndex.Tombstone` | etcd/mvcc/key_index.go:132-150 | Not found, with nothing changed, exactly when the key is not live; otherwise appends a tombstone and closes the life |
| `KeyIndices.KeyIndex.Get` | etcd/mvcc/key_index.go:154-176 | Returns what looking up the flat history gives |
| `KeyIndices.KeyIndex.FindGeneration` | etcd/mvcc/key_index.go:309-330 | The generation found holds the latest item at or before the revision; none is found exactly when there is no such item or it is a tombstone |
| `KeyIndices.KeyIndex.Since` | etcd/mvcc/key_index.go:181-223 | The scan that starts at a middle generation returns exactly the reference list over the whole history |
| `KeyIndices.Walk` | etcd/mvcc/key_index.go:377-386 | The position of the last element that satisfies the stop condition, -1 when there is none |
| `KeyIndices.KeyIndex.DoCompact` | etcd/mvcc/key_index.go:276-300 | The cut point of the compaction and the revision it adds to the available set |
| `KeyIndices.KeyIndex.Compact` | etcd/mvcc/key_index.go:229-258 | The index holds the compacted history, and the available set grows by exactly the survivor at or before the revision |
| `KeyIndices.KeyIndex.Keep` | etcd/mvcc/key_index.go:261-274 | Yields the same set as Compact and changes nothing |
| `KeyIndices.GenerationsDetermined` | etcd/mvcc/key_index.go:336-353 | Two well-shaped generation lists whose items agree in revision, tombstone and version agree in the versions and revisions of every generation |
| `KeyIndices.EqualExactly` | etcd/mvcc/key_index.go:336-353 | equal finds two non-empty indexes equal if and only if they belong to one key and agree in every revision, tombstone and version |
| `KeyIndices.RestoreIntoIndex` | etcd/mvcc/kvstore.go:514-527 | Replaying the surviving records of one key rebuilds its items |
| `KeyIndices.CompactThenRestore` | etcd/mvcc/kvstore.go:488-531 | Compaction and restore undo each other: the rebuilt index is equal to the compacted one, and agrees with it in key, modified and every item but for the sub part of creation revisions |
| `TreeRestore.NextRecord` | etcd/mvcc/kvstore.go:488-527 | Each record is the next item of its key and of no other, however the records of the keys interleave |
| `TreeRestore.Find` | etcd/mvcc/kvstore.go:493-512 | The bounded cache before the tree never changes which index is found, whatever it throws out |
| `TreeRestore.RestoreIntoTree` | etcd/mvcc/kvstore.go:488-531 | Replaying the interleaved records of all keys rebuilds the index of every key and of no other; the current revision is the last one seen |
| `TreeRestore.ReopenTree` | etcd/mvcc/kvstore.go:488-531 | Replaying what the backend holds of a tree rebuilds a tree with the same keys, each index equal to the stored one and item by item the same but for the sub part of creation revisions |
| `TreeIndices.TreeIndex.constructor` | etcd/mvcc/index.go:47-52 | An empty tree |
| `TreeIndices.TreeIndex.Put` | etcd/mvcc/index.go:54-67 | Adds one event to the history of that key and of no other, also between the steps of a compaction |
| `TreeIndices.TreeIndex.Tombstone` | etcd/mvcc/index.go:165-177 | Adds one tombstone when the key is live, else reports not found and changes nothing |
| `TreeIndices.TreeIndex.Get` | etcd/mvcc/index.go:69-77 | At any revision not below the last compaction, answers from the full uncompacted history, at any point of a running compaction |
| `TreeIndices.TreeIndex.BeginCompact` | etcd/mvcc/index.go:212-221 | The first locked step of Compact: every stored key is waiting |
| `TreeIndices.TreeIndex.CompactNext` | etcd/mvcc/index.go:223-243 | One locked step of Compact: the histories, and so all reads, stay the same; the deletion of an emptied index never fails and no stored index is empty |
| `TreeIndices.TreeIndex.Keep` | etcd/mvcc/index.go:246-256 | The union over all keys of the revisions a compaction would keep |
| `TreeIndices.TreeIndex.Visit` | etcd/mvcc/index.go:92-107 | Hands out exactly the stored keys in range, in order |
| `TreeIndices.TreeIndex.Revisions` | etcd/mvcc/index.go:109-127 | The total of live keys in range and the modified revisions of the first of them, in key order: as many as the limit when it is positive and exceeded, else all; by the full history |
| `TreeIndices.TreeIndex.RangeSince` | etcd/mvcc/index.go:182-210 | The sorted merge of since over exactly the keys in range; above the compacted revision it is what the full uncompacted histories give |
| `Applying.ReplayExact` | etcd/etcdserver/server.go:2211-2249 | Replaying any stretch of the log from where apply stands keeps both stores at "each entry once": v2 takes every entry, v3 only those beyond the consistent index |
| `Applying.CaughtUp` | etcd/etcdserver/server.go:2211-2249 | Once the log has been replayed to the consistent index both stores are what applying each committed entry exactly once gives |
| `Applying.BackendUntouched` | etcd/etcdserver/server.go:2211-2249 | The backend, its index included, changes only by a v3 request beyond the consistent index, and then has the index of that entry |
| `Applying.Applier.constructor` | etcd/etcdserver/server.go:1020-1025 | A server that starts from a snapshot image and a backend that is not behind it |
| `Applying.Applier.ApplyEntryNormal` | etcd/etcdserver/server.go:2211-2294 | Changes the stores as the reference step does: the gate on the consistent index, the empty entry, the v2 and the v3 request |
| `Applying.Applier.ApplyConfChange` | etcd/etcdserver/server.go:2182-2193 | A configuration change goes to the v2 store and moves the consistent index forward only |
| `Applying.Applier.Apply` | etcd/etcdserver/server.go:2170-2208 | The loop replays its entries in order |
| `Applying.Applier.ApplyEntries` | etcd/etcdserver/server.go:1388-1415 | Fails, with nothing changed, exactly when the batch leaves a gap; otherwise the applied index is the larger of the old one and the last of the batch, and the stores are the replay of the log in between |
| `Applying.Applier.SaveIndex` | etcd/mvcc/kvstore.go:333-342 | The consistent index is written with the state it belongs to |
| `Applying.Applier.ApplySnapshot` | etcd/etcdserver/server.go:1156-1386 | The stores, indexes and progress after a received snapshot; a panic, with nothing changed, exactly when the snapshot is not ahead or its database cannot be opened |
| `Applying.Applier.CreateMergedSnapshotMessage` | etcd/etcdserver/snapshot_merge.go:31-62 | The message holds the v2 image at the applied index and a database that matches its own consistent index, which is not behind |
| `Recovery.StepKeeps` | etcd/etcdserver/server.go:1134-1154 | Every step of the apply loop, the raft loop, the snapshot goroutines, the backend and the crash keeps the invariant of memory and disk; the only step that panics installs a snapshot whose database is gone |
| `Recovery.DeleteKeeps` | etcd/etcdserver/api/snap/snapshotter.go:298-337 | Deleting the databases before a saved snapshot never takes one that a restart could need |
| `Recovery.TriggerKeeps` | etcd/etcdserver/server.go:1417-1436 | When a local snapshot is triggered, the flushed backend and the commit index on disk already cover it |
| `Recovery.IncomingStepKeeps` | etcd/etcdserver/storage.go:55-70 | Each single write of saving a received snapshot keeps the invariant |
| `Recovery.RestartKeeps` | etcd/etcdserver/backend.go:100-113 | Whatever commit index survived, the restart finds the backend or the database it needs |
| `Recovery.PanicsExactly` | etcd/etcdserver/server.go:1189-1215 | At any point of any run a panic is reached if and only if the apply loop is to install a snapshot whose database is gone: never by a gap, an outdated snapshot, or a restart that lacks a database |
| `Recovery.ExactlyOnce` | etcd/etcdserver/server.go:440-488 | A crash at any point of any run: the restart starts with a consistent index not behind the snapshot, and after replaying the log both stores are "each committed entry exactly once, in order" |
| `Recovery.StoresExact` | etcd/etcdserver/server.go:2211-2249 | Between crashes the v2 store is exact at the applied index and the v3 store at the consistent index |
| `Recovery.SavedIsFound` | etcd/etcdserver/api/snap/snapshotter.go:118-143 | A snapshot that was saved is never forgotten: whatever happens later, crashes and deletions of databases included, every restart begins there or at a later one |
| `Recovery.FlushedIsFound` | etcd/mvcc/kvstore.go:333-342 | A restart right after the backend was flushed begins with what was flushed; before a snapshot is saved or sent, the consistent index is flushed as well |
| `Recovery.TriggeredOnce` | etcd/etcdserver/server.go:1417-1436 | A snapshot is triggered once for each applied index |
| `Recovery.OwnSnapshotServes` | etcd/etcdserver/server.go:2393-2446 | For all stores, every log and each of its indexes, a run that applies the log so far, saves a snapshot of its own and restarts with both stores exactly there |
| `Recovery.ReleaseLeads` | etcd/etcdserver/api/snap/snapshotter.go:298-337 | Releasing a saved snapshot is a run of single deletions that leaves exactly the databases not below it, with their content |
| `Recovery.SnapshotSavedEarly` | etcd/etcdserver/raft.go:222-300 | A received snapshot whose hard state was saved early gets persisted without another hard state |
| `Recovery.MissingDatabaseExactly` | etcd/etcdserver/server.go:1207-1215 | Deletions of databases can make the install of a queued snapshot panic if and only if a later snapshot has been saved and may release them; a database that is gone is superseded by a durable later snapshot |
| `Recovery.MissingDatabaseReachable` | etcd/etcdserver/server.go:1207-1215 | For all stores and every log of two entries or more, a run in which the apply loop panics because the raft loop has deleted the database |
| `DataDirectory.DataDir.SaveSnap` | etcd/etcdserver/storage.go:55-70 | The directory after each of the two writes: with the file and then with the record, so that no record lacks its file in between |
| `DataDirectory.DataDir.ReleaseSnapDBs` | etcd/etcdserver/api/snap/snapshotter.go:298-337 | A database stays, with its content, if and only if it is not below the snapshot |
| `DataDirectory.DataDir.LoadNewestAvailable` | etcd/etcdserver/api/snap/snapshotter.go:118-143 | The newest snapshot file with a WAL record that is not beyond the last commit index |
| `DataDirectory.DataDir.OpenSnapshotBackend` | etcd/etcdserver/backend.go:57-66 | The database becomes the backend and leaves the snap directory; fails, with nothing changed, exactly when it is missing |
| `DataDirectory.DataDir.RecoverSnapshotBackend` | etcd/etcdserver/backend.go:100-113 | The old backend wins exactly when it is not behind the snapshot |
| `DataDirectory.DataDir.NewServer` | etcd/etcdserver/server.go:440-488 | After any run and crash neither the missing database nor the mismatch of backend and snapshot is reported, and the server starts in the state of the recovery theorem |
| `DataDirectory.DataDir.ApplyAll` | etcd/etcdserver/server.go:1134-1154 | Applying a queued snapshot or batch, in any state of any run: it fails exactly where the state machine of the recovery theorems panics, and otherwise takes memory and disk where that does |
| `ReadyLoop.WaitsExactlyOnOverlap` | etcd/etcdserver/raft.go:383-394 | The comparison of one pair of entries is true if and only if committed and unstable entries overlap |
| `ReadyLoop.SavedBeforeApplied` | etcd/etcdserver/raft.go:211-240 | In every run each committed entry has been written and flushed when its batch is sent to the apply loop: whatever a crash leaves of the log holds it |
| `ReadyLoop.VoteSurvives` | etcd/raft/node.go:577-586 | In every run and every Ready, from the moment its batch has been saved everything a crash can leave has the term and vote of the Ready, or those from before when it brings none |
| `ReadyLoop.BallotsAgree` | etcd/wal/wal.go:925-961 | In every run all that a crash can leave between two Readys agrees on term and vote |
| `ReadyLoop.PromisesSurvive` | etcd/etcdserver/raft.go:318-345 | In every run, when a member that is not the leader sends its messages, everything a crash can leave has the term, the vote and the new entries of the Ready |
| `ReadyLoop.FlushedExactly` | etcd/wal/wal.go:934-961 | A batch is flushed if it brings entries, another term or vote, or fills the segment; otherwise all that a crash could leave before it can be left after it |
| `ReadyLoop.OverwrittenExactly` | etcd/wal/wal.go:448-460 | Appended entries replace everything in the log from the first of them on and nothing before |
| `ReadyLoop.ReadyFinishes` | etcd/etcdserver/raft.go:222-300 | From any point of any run: at the end of a Ready everything it carried is on record, and flushed when it carried a snapshot |
| `ReadyLoop.ReadyReadable` | etcd/etcdserver/raft.go:222-300 | After every single write of a Ready what a crash can leave is read back as the committed log, unless its early save does harm |
| `ReadyLoop.CrashLeavesReadableLog` | etcd/etcdserver/raft.go:250-275 | In every faithful run, between any two writes: from the newest snapshot on record the log can be read back up to its commit index and holds what the cluster committed, unless the Ready at hand holds a snapshot the log does not lead up to together with committed entries not yet saved |
| `ReadyLoop.ReadableExactly` | etcd/etcdserver/raft.go:222-275 | That exception is exact: all crash points of a Ready are safe if and only if it has no snapshot, no unsaved committed entry, or a log that leads up to the snapshot without it |
| `ReadyLoop.SnapshotWithUnsavedCommit` | etcd/etcdserver/raft.go:222-275 | A concrete Ready within the contract of raft for which saving early leaves an unreadable log |
| `ReadyLoop.RestartWithWrongEntry` | etcd/etcdserver/raft.go:222-275 | A concrete run in which the early save is cut short and the member restarts with an entry as committed that the cluster never committed |
| `ReadyLoop.NotifiedIsDurable` | etcd/etcdserver/raft.go:277-349 | In every run, for every Ready: when the apply loop is notified, the commit index on record reaches the batch, and a snapshot with its file, record and commit index has been flushed |
| `ReadyLoop.StepKeeps` | etcd/etcdserver/raft.go:162-357 | Every step of raft and of the loop, crashes within any Ready included, keeps the invariant of raft and log |
| `ReadyLoop.StepSound` | etcd/etcdserver/raft.go:162-357 | Every step keeps the log readable and raft at the committed log, as long as raft commits what the cluster commits and no early save does harm |
| `ReadyLoop.RaftNode.Save` | etcd/wal/wal.go:925-961 | Nothing for an empty batch, else entries, hard state and, when `FlushedExactly` says so, a flush, in this order |
| `ReadyLoop.RaftNode.HandleReady` | etcd/etcdserver/raft.go:162-357 | The order of all writes, the hand-over, the messages and the notifications of one Ready |
| `LinearRead.StepKeeps` | etcd/etcdserver/v3_server.go:761-812 | Every step of readers, loop, raft and apply keeps the bounds that the loop knows about those it serves |
| `LinearRead.LinearizableReads` | etcd/etcdserver/v3_server.go:931-951 | A call that returns nil: everything committed in the cluster when it began has been applied, however replies are delayed, repeated or mixed up |
| `LinearRead.FailureHasCause` | etcd/etcdserver/v3_server.go:931-951 | In every run a waiting call fails only if it gave up itself or a request failed in the very round that served its notifier |
| `LinearRead.AnswerableExactly` | etcd/etcdserver/v3_server.go:931-951 | At any point of any run some continuation ends with nil for a waiting call if and only if its notifier was notified with nil, or is not notified yet while the loop runs and is not about to notify it of a failure |
| `LinearRead.NewCallAnswerable` | etcd/etcdserver/v3_server.go:761-812 | At any point of any run, as long as the loop runs, some continuation ends with nil for a call that begins now |
| `LinearRead.NoneAfterStop` | etcd/etcdserver/v3_server.go:767-769 | A call that waits when the loop stops, on a notifier not notified yet, never returns nil |
| `LinearRead.LateReplyCounts` | etcd/etcdserver/v3_server.go:814-868 | When a request is repeated under its id, the delayed reply to the first one still confirms the index it was asked for |
| `LinearRead.RoundsAreAskedFor` | etcd/etcdserver/v3_server.go:761-783 | In every run the loop starts no more rounds than calls have signaled, a token in the channel counted as well |
| `LinearRead.NoLostWakeUp` | etcd/etcdserver/v3_server.go:931-949 | A reader that has signaled and waits on the notifier in place: a token is in the channel or the loop has taken one and not swapped yet |
| `LinearRead.NoneStranded` | etcd/etcdserver/v3_server.go:761-812 | A reader on a replaced notifier is being served or has been answered |
| `LinearRead.NotifiedOnce` | etcd/etcdserver/v3_server.go:761-812 | No notifier is closed twice |
| `WatchHistory.MatchingMembers` | etcd/clientv3/watch.go:1023-1035 | The history owed to a watch holds exactly the matching events of its revisions, each as often as the log does |
| `WatchHistory.MatchingSplit` | etcd/clientv3/watch.go:790-884 | The history up to a revision and the history from there make up the whole |
| `WatchExact.AcceptKeeps` | etcd/clientv3/watch.go:790-884 | Taking a response moves what the subscriber holds and how far it has been served together |
| `WatchExact.AcceptDeadKeeps` | etcd/clientv3/watch.go:790-884 | Nothing after a failure reaches the subscriber |
| `WatchExact.DispatchReaches` | etcd/clientv3/watch.go:720-768 | Only a pure progress notification without a watch reaches everybody who is served; any other response reaches the one watcher registered under its id, if there is one |
| `WatchExact.AddedOrEnded` | etcd/clientv3/watch.go:451-461 | A refused creation ends the watcher and registers nothing; any other registers it under the id of the reply |
| `WatchExact.ClosedIsGone` | etcd/clientv3/watch.go:472-494 | In every state of every run a watcher that is closed is neither served nor resuming any more, and no other place in the queue changes |
| `WatchExact.EndedHearsNothing` | etcd/clientv3/watch.go:790-884 | Nothing reaches a watcher whose serving goroutine has ended |
| `WatchExact.CreatedKeeps` | etcd/clientv3/watch.go:584-603 | When a creation arrives somebody is waiting for it, and it registers the watcher whose request it answers |
| `WatchExact.ReceiveKeeps` | etcd/clientv3/watch.go:576-660 | Every response, fragments and leftovers of a failed stream included, keeps the invariant |
| `WatchExact.ReconnectKeeps` | etcd/clientv3/watch.go:886-930 | A new stream takes every watcher over with its next revision and buffer |
| `WatchExact.DetachedKeeps` | etcd/clientv3/watch.go:886-930 | A watcher that asks again for less than it was served begins another stretch of the history |
| `WatchExact.StepKeeps` | etcd/clientv3/watch.go:497-705 | Every step of client, server and network keeps the invariant |
| `WatchExact.HeldExactly` | etcd/clientv3/watch.go:790-884 | In every run, across any failures: events sent plus events buffered are one stretch of the matching history after the other, each from the revision asked for to where it was served |
| `WatchExact.NothingLostOrRepeated` | etcd/clientv3/watch.go:790-884 | Across any failures, events sent plus events buffered are exactly the matching history from the start revision to where the watcher has been served, as long as no reconnect finds it behind a header that went back; up to its next revision if and only if nothing that matches lies in between |
| `WatchExact.RewoundExactly` | etcd/clientv3/watch.go:856-864 | A watcher has gone back if and only if at some reconnect the last header it accepted lay before what it had been served or its start |
| `WatchExact.SentIsABeginning` | etcd/clientv3/watch.go:790-884 | What a subscriber was sent is a beginning of those stretches even when its watch has failed or ended, and of the history from its start when it never went back |
| `WatchExact.QueueNeverEmptyOnCreation` | etcd/clientv3/watch.go:584-590 | The head of the resuming queue is never taken from an empty queue |
| `WatchExact.RepliesMatchRequests` | etcd/clientv3/watch.go:709-717 | One create request is under way exactly when somebody is resuming, and every id belongs to a watch for its own interest |
| `WatchExact.ProgressExactly` | etcd/clientv3/watch.go:856-864 | In every run, for every live watcher: it holds exactly the history from its start to the furthest it was served if and only if no event was delivered from below that point again, and exactly the history to its next revision if and only if moreover nothing that matches lies between there, or its start, and that point |
| `WatchExact.EarlyProgressRepeats` | etcd/clientv3/watch.go:856-864 | A run in which a watch from revision 10 is told of progress at 5, reconnects and delivers the event of revision 6: the count in the condition is 1 |
| `WatchStream.WatchGrpcStream.NextResume` | etcd/clientv3/watch.go:709-717 | Drops abandoned places at the head and returns the next watcher |
| `WatchStream.WatchGrpcStream.CloseSubstream` | etcd/clientv3/watch.go:472-494 | Removes a registered watcher by id, or leaves an empty place in the queue |
| `WatchStream.WatchGrpcStream.ResumeAll` | etcd/clientv3/watch.go:886-905 | Everybody resumes, in the order of the walk, behind those already resuming; empty places go |
| `WatchStream.WatchGrpcStream.HandleResponse` | etcd/clientv3/watch.go:576-660 | The merging of fragments and the dispatch of the run loop, tied to the function the theorem is about |
| `WatchStream.WatchGrpcStream.AddToSubstreams` | etcd/clientv3/watch.go:451-461 | Registers under the id of the reply, or ends the watcher |
| `WatchStream.WatchGrpcStream.Dispatch` | etcd/clientv3/watch.go:720-768 | To one substream, or to all for a progress notification of the whole stream |
| `Transactions.PathLength` | etcd/etcdserver/apply.go:423-437 | The path has one decision for each nested transaction on the taken branches, and one more |
| `Transactions.RespMeaning` | etcd/etcdserver/apply.go:393-421 | newTxnResp stays within the path, returns the number of nested transactions and builds the response tree of direct evaluation, with a nil slot for an empty operation |
| `Transactions.ChecksMeaning` | etcd/etcdserver/apply.go:910-931 | checkRequests checks the taken operations in order, reports the first error and returns the number of nested transactions |
| `Transactions.ApplyMeaning` | etcd/etcdserver/apply.go:520-570 | applyTxn applies the taken operations in order, every compare decided on the state before the transaction, at any depth; an empty operation is a panic |
| `Transactions.TxnMeaning` | etcd/etcdserver/apply.go:355-390 | The whole transaction equals direct recursive evaluation without any path |
| `Transactions.TxnWrite.Apply` | etcd/etcdserver/apply.go:520-570 | The recursive method with its loop and offsets changes the store as the function of `ApplyMeaning` does, whose plain operations `DeletesExactly` and `PutStores` describe |
| `Transactions.ChecksMakeWritesTotal` | etcd/etcdserver/apply.go:355-390 | When both passes of checks succeed the write phase reaches no panic if and only if the taken branches hold no empty operation and no put that relies on the previous value or lease after a deletion of its key |
| `Transactions.DeletedBeforeIgnoringPut` | etcd/etcdserver/apply.go:206-211 | A transaction that passes both checks and panics in the write phase |
| `Transactions.EmptyOperationPanics` | etcd/etcdserver/apply.go:520-570 | So does a transaction with an empty operation: its response slot is nil |
| `Transactions.CompareMeans` | etcd/etcdserver/apply.go:448-518 | A compare of numbers holds if and only if every key that its key and range end stand for is in the relation, or 0 is when there is no such key; an operand of another kind counts as 0 |
| `Transactions.CompareValueMeans` | etcd/etcdserver/apply.go:450-518 | A compare of values holds if and only if there is a key in its range and each of them is in the relation as a byte string; an operand of another kind is the empty string |
| `Transactions.KeysSelected` | etcd/etcdserver/apply.go:985-994 | A key and a range end stand for the key alone without an end, all keys not below it with the end {0}, and otherwise the keys from it up to the end |
| `Transactions.ComparesSplit` | etcd/etcdserver/apply.go:439-446 | A list of compares holds if and only if each of them does |
| `Transactions.DeletesExactly` | etcd/etcdserver/apply.go:230-255 | A deletion removes exactly the key without a range end, exactly the keys not below it with the end {0}, else exactly the keys up to the end; the others keep their values and each key counts as one change |
| `Transactions.PutStores` | etcd/etcdserver/apply.go:197-227 | A put fails exactly when it needs a key or a lease that is missing; otherwise it stores its value and lease, or keeps those it is told to ignore, and no other key changes |
| `Transactions.VersionsCount` | etcd/mvcc/kvstore_txn.go:182-222 | Over all operations of a transaction that does not delete a key: each put of the key counts one version, the first one fixes a new creation, all have the revision of the transaction, and without a put the key stays as it is |
| `Transactions.RangeReadsOwnChanges` | etcd/etcdserver/apply.go:520-570 | Within a transaction a range can ask for the revision being made exactly when something has changed already |
| `Transactions.SlotKinds` | etcd/etcdserver/apply.go:393-421 | Each slot of the response is of the kind of its operation, and a nested one says which branch was taken |
| `Transactions.ChecksExactly` | etcd/etcdserver/apply.go:933-972 | The checks pass a put or a range if and only if it can be applied, but for leases that are to be ignored and negative revisions; which error is reported when |
| `Transactions.TxnPanicsExactly` | etcd/etcdserver/apply.go:355-390 | A transaction panics if and only if what it takes passes both checks and holds an empty operation, or a put that relies on what an earlier deletion took away |
| `Transactions.RevisionExactly` | etcd/etcdserver/apply.go:381-389 | A transaction takes one new revision if it puts anything or deletes a key that was there; otherwise revision and state stay |
| `Transactions.DropRanges` | etcd/etcdserver/apply.go:1000-1016 | The in-place compaction keeps exactly the operations that are not ranges, in order |
| `Transactions.DroppingRanges` | etcd/etcdserver/apply.go:1000-1016 | With the top-level ranges dropped, state, path and revision are the same; the full transaction succeeds if and only if the reduced one does and the dropped ranges on the taken branch pass their check |
| `Transactions.DroppingRangesDiffers` | etcd/etcdserver/server.go:2256-2263 | A transaction that is rejected where a client waits and changes the store where the range is dropped |
| `Prefixes.GetPrefix` | etcd/clientv3/op.go:372-385 | The loop over the copied key computes the reference range end |
| `Prefixes.MarkerOnlyWhenOpen` | etcd/clientv3/op.go:372-385 | The open-end marker comes out exactly for keys of 0xff bytes only, so a bounded end is never confused with it |
| `Prefixes.PrefixRangeExact` | etcd/clientv3/op.go:390-399 | For every prefix the range, passed through mkGteRange, holds exactly the keys that start with it, and the request never has an empty key |
| `Prefixes.PrefixVisitsExactly` | etcd/mvcc/index.go:92-107 | The walk of the index over that range yields exactly the stored keys with the prefix |
| `Bytes.LessMeans` | etcd/mvcc/key_index.go:332-334 | Byte strings are ordered by the first place where they differ, a proper prefix before what it begins |
| `Heaps.FixOrders` | etcd/lease/lease_queue.go:81-89 | Sinking and otherwise rising from a changed element restores the heap order |
| `Heaps.PopOrders` | etcd/lease/lease_queue.go:91-95 | Taking the root keeps the order and loses nothing else |
| `Heaps.RootIsLeast` | etcd/lease/lease_queue.go:97-102 | The root has the least time |
| `Heaps.OrderedStays` | etcd/lease/lease_queue.go:30-35 | In a heap that is in order sinking, rising and fixing move nothing, whatever leases have the same time |
| `Heaps.ChildIsLeast` | etcd/lease/lease_queue.go:30-35 | The child compared with its parent is the least, the left one when both have the same time |
| `LeaseQueues.LeaseExpiredNotifier.Swap` | etcd/lease/lease_queue.go:37-41 | Exchanges two items and keeps every index equal to its position |
| `LeaseQueues.LeaseExpiredNotifier.Insert` | etcd/lease/lease_queue.go:43-48 | A new item goes to the end, rises to its place and enters the map |
| `LeaseQueues.LeaseExpiredNotifier.Pop` | etcd/lease/lease_queue.go:50-57 | Takes the last item and nothing else |
| `LeaseQueues.LeaseExpiredNotifier.RegisterOrUpdate` | etcd/lease/lease_queue.go:81-89 | The lease has the new time and the others theirs, one item for each lease, also when the caller has changed the time of an item that is in the queue |
| `LeaseQueues.LeaseExpiredNotifier.Unregister` | etcd/lease/lease_queue.go:91-95 | Removes the lease with the least time from queue and map and nothing else |
| `LeaseQueues.LeaseExpiredNotifier.Poll` | etcd/lease/lease_queue.go:97-102 | An item of least time with the latest registered time of its lease, none exactly when nothing is registered |
| `AuthStores.NewRoleAddsNothing` | etcd/auth/store.go:838-867 | A role without permissions leaves every merged entry as it is, also for users that were granted it before it existed |
| `AuthStores.Search` | etcd/auth/store.go:588-590 | Binary search gives the first position not below the key |
| `AuthStores.ValidRangesHoldKeys` | etcd/auth/range_perm_cache.go:194-214 | A permission with a key has a valid range if and only if the range holds some key |
| `AuthStores.PermissionMeans` | etcd/auth/range_perm_cache.go:41-64 | A READ permission lets read and not write, WRITE the other way round, READWRITE both: the key alone without a range end, every key not below it with the end {0}, else the keys up to the end |
| `AuthStores.AuthStore.GetMergedPerms` | etcd/auth/range_perm_cache.go:25-72 | The two trees hold exactly the intervals that the existing roles of the user allow |
| `AuthStores.AuthStore.RefreshRangePermCache` | etcd/auth/range_perm_cache.go:138-160 | The cache has exactly the stored users, each with the merge of its current roles |
| `AuthStores.AuthStore.HasRootRole` | etcd/auth/store.go:1223-1227 | Binary search decides membership of the root role |
| `AuthStores.AuthStore.AuthEnable` | etcd/auth/store.go:236-279 | Succeeds exactly when the root user has the root role, or when already enabled; the invariant holds |
| `AuthStores.AuthStore.AuthDisable` | etcd/auth/store.go:281-304 | Disables and keeps users, roles and cache |
| `AuthStores.AuthStore.Recover` | etcd/auth/store.go:393-416 | Users, roles, flag, revision and cache are those of the backend |
| `AuthStores.AuthStore.UserAdd` | etcd/auth/store.go:418-477 | A new user without roles, exactly when the name is given and free; cache coherent |
| `AuthStores.AuthStore.UserDelete` | etcd/auth/store.go:479-516 | Removes the user, but never root while enabled; cache coherent |
| `AuthStores.AuthStore.UserChangePassword` | etcd/auth/store.go:518-569 | Changes the password only; cache coherent |
| `AuthStores.AuthStore.UserGrantRole` | etcd/auth/store.go:571-623 | Adds the role to the sorted list once, exactly when user and role exist or the role is root; cache coherent |
| `AuthStores.AuthStore.UserRevokeRole` | etcd/auth/store.go:653-710 | Removes the role and nothing else, but never root from root while enabled; cache coherent |
| `AuthStores.AuthStore.RoleAdd` | etcd/auth/store.go:838-867 | An empty role; the cache is not refreshed and still coherent |
| `AuthStores.AuthStore.RoleDelete` | etcd/auth/store.go:783-836 | Removes the role and takes it from every user, whose password and other roles stay; cache coherent |
| `AuthStores.AuthStore.RoleGrantPermission` | etcd/auth/store.go:887-939 | The first permission with the key is replaced when it has the range too, otherwise the permission is added to all there were; sorted by key, cache coherent |
| `AuthStores.AuthStore.RoleRevokePermission` | etcd/auth/store.go:740-781 | Removes every permission with that key and range end, not granted exactly when there is none; cache coherent |
| `AuthStores.AuthStore.IsKeyPermitted` | etcd/auth/range_perm_cache.go:101-115 | The cached trees allow a key if and only if some role the user holds now has a permission of the right kind whose key and range end, compared as byte strings, take the key in |
| `AuthStores.AuthStore.IsRangeOpPermitted` | etcd/auth/range_perm_cache.go:74-136 | A range with any key in it, as its key and range end stand for keys, is allowed exactly when each of its keys is, by whatever roles the user holds now |
| `Standalone.GetIDs` | etcd/etcdserver/raft.go:734-770 | The sorted members by the voters of the snapshot and the changes in the entries |
| `Standalone.MembersExactly` | etcd/etcdserver/raft.go:734-770 | An id is found if and only if it was a voter of the snapshot or was added, as a learner or not, and was not removed after that |
| `Standalone.RolesExactly` | etcd/etcdserver/raft.go:777-837 | In the configuration of raft the last entry about an id decides: it is a voter or a learner exactly when it was added as such last, or was one before and no entry is about it |
| `Standalone.CreateConfigChangeEnts` | etcd/etcdserver/raft.go:777-837 | The member first if it is missing, then one removal for every other, with consecutive indexes |
| `Standalone.ChangesLeaveSelf` | etcd/etcdserver/raft.go:777-837 | The appended entries are contiguous, have the given term and leave, of the ids that getIDs counts, exactly the member itself |
| `Standalone.VotersExactly` | etcd/etcdserver/raft.go:777-837 | In the configuration of raft the member is the only voter in the end, and a voter after each appended entry, if and only if it was missing from the ids or has a vote when they begin; otherwise no voter is left |
| `Standalone.RestartAsStandalone` | etcd/etcdserver/raft.go:634-680 | The new log is contiguous and ends at the new commit index; its ids are the member alone, and its voters are the member or nobody by the same condition |
| `Standalone.LearnerStays` | etcd/etcdserver/raft.go:734-770 | A learner known only to the snapshot is still a learner after the forced restart |
| `Standalone.LearnerGetsNoVote` | etcd/etcdserver/raft.go:789-812 | A member that was added as a learner is not added again: removing the only voter leaves none |
| `Standalone.AloneExactly` | etcd/etcdserver/raft.go:734-770 | The member ends up as only voter with no learner if and only if it gets a vote and no other learner of the snapshot is left that the entries neither promoted nor removed |

## Left out

- The 64-bit bounds of revisions, indexes and versions: they are unbounded integers here.
- `treeIndex.Range` and `CountRevisions`: the walk of `Revisions` with another result; `Equal` and `Insert`, which only compare or store.
- Real time: timeouts and tickers are steps that may come at any moment; nothing is said about progress.
- Raft, the files of the WAL, bbolt, gRPC and the B-tree: they are contracts on steps (committed log, read-index oracle, raft's unstable and stable entries, atomic commit of the backend, ascending walk).
- Recovery.ExactlyOnce: assumes that the backend stores a changed v3 state together with the consistent index of the entry that changed it. Lease grants and alarms write without the index, and the membership buckets are written again on replay; neither is part of this model.
- Recovery.ExactlyOnce: the WAL is taken to be readable, and to hold the committed entries. The early save of a hard state before the snapshot it covers is a step of this model; when it leaves a WAL that is not readable, and when it does not, is what `ReadyLoop.ReadableExactly` says.
- Recovery.ExactlyOnce: the record of a received snapshot reaches the disk before later records because appending it flushes the WAL; the removal of old WAL segments and old snapshot files is not part of this model.
- ReadyLoop.CrashLeavesReadableLog: the entries of one batch reach the log together; a crash in the middle of one batch, which can leave a part of it, is not modelled.
- ReadyLoop.CrashLeavesReadableLog: faithful runs, in which raft commits what the cluster commits, and a restart from the middle of a Ready whose early save does harm has happened to find the committed log.
- ReadyLoop.PromisesSurvive: messages are one step for each Ready; their contents, and the wait of a follower for configuration changes to be applied before it sends them, are not part of this model.
- ReadyLoop.SavedBeforeApplied: raft marks entries as stable only when its log still holds what the Ready held; this contract of `Advance` is an assumption.
- LinearRead.LinearizableReads: request ids are taken to be distinct within one process.
- LinearRead.AnswerableExactly: says that an answer is possible, not that it comes: replies, the apply loop and the scheduling of the loops are steps that may or may not be taken.
- WatchExact.NothingLostOrRepeated: watchers with an explicit start revision above 0; the server streams whole revisions in order, sends the fragments of a response without others in between, and puts a revision into a progress notification only when nothing up to it is still to come.
- WatchExact.ClosedIsGone: a watcher may be closed more than once here, which the client never does; the registration of another watcher under its old id is claimed to stay only for the first time.
- Watch channels: the closing of channels on shutdown, and a send on a channel that is closed while its watcher is resuming, are not part of this model.
- Transactions.TxnMeaning: the contents of responses are not modelled, only their shape; sub-transactions are not nil; requests for an old revision are checked against the bounds but not evaluated.
- Sorting, pruning and limits of `applierV3backend.Range`.
- LeaseQueues.LeaseExpiredNotifier.RegisterOrUpdate: `Init`, which the lessor calls on an empty queue, is not part of this model.
- AuthStores.AuthStore.RoleGrantPermission: the uniqueness of a key and range end within a role is not claimed, because only the first entry with that key is compared; sorting is the insertion of one element into a sorted list, and the order among equal keys after an addition is left open.
- AuthStores.AuthStore.IsRangeOpPermitted: the covering test of the interval tree is foreign code and a parameter, with its meaning as a precondition; nothing is said about ranges without any key.
- TreeRestore.ReopenTree: takes a backend that holds exactly the records that belong to the tree, as after the background deletion of a compaction has finished; reading them in chunks and passing them through a channel is not part of this model.
- Tokens, password hashing and the revision check of requests.
- Standalone.VotersExactly: changes that the server rejected when it applied them, which raft was told to ignore, are counted as changes; joint configurations are not part of this model.
- Standalone.RestartAsStandalone: takes WAL entries that are contiguous and reach the commit index, as reading the WAL guarantees.
