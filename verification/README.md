# ScrivaDB storage engine: a verified model

ScrivaDB keeps each collection as an append-only log of NDJSON segments and derives everything
else from it: a primary index, secondary indexes, compacted segments, replicas, query results,
pages and plaintext. This project models that engine in Dafny 4.11 and proves that each derived
structure agrees with last-write-wins replay of the log. `dafny verify dfyconfig.toml` checks it.

The files follow the engine's components.

- `Values.dfy`, `Log.dfy`: JSON values and filters; entries, replay, and the primary index as a
  function of the segments. Replay is the reference the rest is compared with.
- `Compaction.dfy`, `SegmentNames.dfy`, `Swap.dfy`, `Compactor.dfy`, `Collisions.dfy`,
  `Passes.dfy`: what a compaction pass does to the meaning of the log; how segment file names
  sort; the crash model of the swap; the directory code, which records every state it goes
  through, as runs of that model; what is left when a pass forgets lines; the two halves of a
  pass over a collection and its directory.
- `Store.dfy`, `SecondaryIndexes.dfy`, `Writes.dfy`, `Batches.dfy`, `Collections.dfy`,
  `Keys.dfy`, `Steps.dfy`, `Durability.dfy`, `Transactions.dfy`, `Runs.dfy`, `Recovery.dfy`: the
  collection state machine, from the effect of one append to the step each operation takes; what
  one keyed write means for the next; how long a record lasts; transactions staged in the midst of
  a run; the code over any run of all operations; and opening a collection again after a crash.
- `Replication.dfy`, `Follower.dfy`, `Snapshots.dfy`, `LeaderNode.dfy`: the leader's broker and
  feed; a follower's tail and convergence; a node of collections, a snapshot of it and the
  bootstrap from that; a collection beside the broker, whose operations are steps of the node.
- `Queries.dfy`, `Ordering.dfy`, `TopK.dfy`, `Paging.dfy`: the two access paths of a scan,
  Count, the bounded heap, and keyset pagination.
- `Encryption.dfy`, `EncryptionAdmin.dfy`, `Migration.dfy`: sealing and reconstruction, the
  policy history, and the migration pass.
- `Segments.dfy`: segment files as bytes.
- `Watch.dfy`: the watch overflow protocol.
- `Common.dfy`: result types and facts about sequences and sets.

## How to read it

A collection, a broker, a follower, a directory, a watcher, a heap and a segment file are
classes whose methods update fields, as in the source. Each critical section is one method, and
its contract gives the new state as a function of the old one. Ghost fields carry what the code
never stores: the log, the live view, what the secondary indexes hold, the bytes on disk, and the
history of everything ever committed. "Every run" results are methods that execute an arbitrary
script of operations (`Runs.AnyRun`, `Replication.AnyRun`, `LeaderNode.AnyRun`,
`EncryptionAdmin.AnyRun`, `Watch.AnyRun`), each of which ends in the state the script leads to,
or lemmas over arbitrary step sequences (`Swap`, `Steps.OneWinnerInRun`,
`Durability.RecordStays`, `Transactions.CommitLands`, `Snapshots.SnapshotOfRun`,
`Paging.StableIsFound`).

`Steps.Ran` gives the step of each operation as a relation between two states of a collection.
`Runs.Step` shows that the code takes that step; what every run keeps is then proved of the steps
(`Steps.RanTidy`, `Steps.RanReserves`, `Steps.RanLeads`, `Durability.RecordStays` and the like). A
directory adds each state it goes through to its trace; `Compactor.Track` says that a stretch of
the trace is a run of the crash model.

A method tied to a specification function also says what the caller sees (which records, fields and
deadlines, in which order) without naming that function.

A secondary index is given the plaintext while the segment gets the stored form. So a collection
carries what its indexes hold (`held`) apart from its live view; `Encryption.LiveIsRebuiltIff`
says when a write keeps the two in step.

Numbers are represented by their rank among the finite float64 values and printed by a lossless
format, since the engine only compares and renders them. Ciphertext is symbolic: an envelope
remembers the key, context and plaintext it was sealed from. Clocks, ciphertext bytes, line
lengths, the line codec, read sizes and map iteration order are parameters or arbitrary choices.

Hypotheses the source relies on without checking appear as `requires`: a pass starts without
stray temp files; appends and fsyncs succeed; replicated writes carry a revision of at least 1
and arrive while no transaction is open; sort fields are homogeneous; rebuilt secondary
indexes are swapped in atomically; the persisted id counter covers the sealed segments. What the
published log is compared with is a collection without deadlines and re-sealing, since reaped
tombstones and re-encrypted lines are not published.

## Where the code and its description differ

The model follows the code.

- Count's comment promises the scan's length for every filter. The fast paths also count records
  past their deadline that are not reaped yet: `Queries.CountIsScanIff` gives the exact condition.
- A compaction pass may rename a new segment over the active one: `Swap.ActiveSurvivesIff` gives
  the exact condition and `Swap.ActiveLost` an instance. It then installs its segments all the
  same; `Collisions.KeptIff` and `Collisions.LostIffTouched` say which records are lost.
- A rotation between a pass's snapshot and its swap drops the segment it sealed from memory until
  the collection is reopened: `Collisions.RotationForgets` says for every record when it comes
  through, `Collisions.DeletedComesBack` gives a deleted record that is live again,
  `Collisions.ReopenRemembers` what reopening finds.
- Segment names are padded to six digits and sorted as strings, so from number 1000000 on an
  open may take the wrong one for the active one: `SegmentNames.ShorterFirstIff`,
  `Swap.OpenFindsIff`, `Swap.WrongActive`.
- Promoting a follower raises the LSN counter under replicas already attached to it, which miss
  what lies in between: `Replication.RaiseKeepsIff`, `Replication.PromotedUnder`.
- An encrypted field cannot be indexed, but an indexed field can be encrypted: the live index then
  holds plaintext and the rebuilt one ciphertext, and a unique index stops enforcing
  (`Encryption.LiveIsRebuiltIff`, `Encryption.UniqueForgotten`, `EncryptionAdmin.EncryptIndexed`).
- SetEncryptionPolicy's comment describes switching modes after disabling and compacting; the
  code refuses another mode for good once one was installed
  (`EncryptionAdmin.Admin.SetEncryptionPolicy`).
- With encryption disabled on a record-mode collection a caller may write `secure_data`, and
  reads then drop it: `Encryption.ReadsBackIff`, `Encryption.FieldForgotten`.
- A record stored before encryption was ever configured is not checked for the reserved marker:
  `Encryption.LegacyReadsIff` says when it still reads back, `Encryption.LegacyLost` gives two
  that do not.
- CommitTx and Upsert measure the byte quota on plaintext lines, Insert and InsertMany on sealed
  ones, so only the latter keep the byte limit: `Batches.ManyFits`, `Batches.TxOverfills`,
  `Collections.UpsertOverfills`. Updates and deletes are not measured at all.
- An update of a record deleted earlier in the same batch restarts it at revision 1
  (`Batches.TxReplay` follows the code).

## Model

| member | source | states |
|---|---|---|
| `Values.StrCompareTrans` | query/filter.go:140-155 | Byte-wise string comparison is transitive, strictly so as soon as one step is strict. |
| `Values.CompareFlip` | query/filter.go:140-155 | Swapping the operands of Compare negates the result, for every pair of values. |
| `Values.CompareTrans` | query/filter.go:140-155 | Among values that are all numbers or all non-numbers Compare is a total preorder: transitive, and strict if either step is. |
| `Values.CompareCycle` | query/filter.go:108-155 | Across types Compare is not transitive, for any number format that prints some smaller number "9" and some larger one "10": 9 < 10 as numbers while "10" < "1a" < "9" as text. |
| `Values.EqualIsSameKey` | query/filter.go:127-134 | Type-aware equality of two values holds exactly when their index keys are equal, so an eq lookup by key refines an eq filter. |
| `Values.HoldsOnNumbers` | query/filter.go:69-155 | Of two numbers the six tests are those of the integers, strict and not. |
| `Values.HoldsOnText` | query/filter.go:69-155 | Of two strings they are equality and the byte-wise order, given by the first place where the strings differ. |
| `Log.ReplayConcat` | engine/index.go:190-223 | Replaying one log after another is replaying the second on the view of the first. |
| `Log.ReplayAt` | engine/index.go:190-223 | What last-write-wins replay makes of an id depends only on the entries of that id, and on the starting view only if there are none. |
| `Log.RevisionsIncrease` | engine/collection.go:704-757 | In every well-formed log two writes of one record with no deletion of it between them carry strictly increasing revisions. |
| `Log.RebuildIsReplay` | engine/index.go:183-223 | The rebuilt index lists exactly the live records of the replay, and the revision Rebuild recomputes by position equals the recorded one, with the recorded deadline and epoch. |
| `Log.LivePosition` | engine/index.go:190-223 | The index entry of an id locates the one line that replay leaves live for it. |
| `Log.LivenessTestExact` | engine/scan.go:350-391 | The liveness test of a segment scan is exact: the index points at a line that is no tombstone if and only if no later line concerns its record. |
| `Log.LinesPlaced` | engine/segment.go:133-163 | No two lines of segments with ascending numbers share a (segment, offset) location. |
| `Compaction.LatestEntries` | engine/compactor.go:357-379 | The replay loop ends with the last entry of every id and no other, tombstones included. |
| `Compaction.ResolveEntries` | engine/compactor.go:353-379 | Whatever order the map is walked in, the survivors are exactly the live records of the sealed segments with no deadline or one after now, each once. |
| `Compaction.CompactionPreserves` | engine/compactor.go:353-437 | Replay of the rewritten segments followed by the active one agrees with replay of the old ones on every record but those reclaimed (latest version sealed and past its deadline), and these are gone; holds for every order of survivors and up to re-sealing. |
| `Compaction.ReclaimedIff` | engine/compactor.go:366-379 | A record is reclaimed if and only if no active line concerns it and its sealed version has a deadline at or before now. |
| `Compaction.RewrittenFrom` | engine/compactor.go:296-379 | A record no active line concerns is rewritten from the very entry it was live as. |
| `Compaction.CompactionKeepsWellFormed` | engine/index.go:183-223 | The rewritten log is still well-formed, so a rebuild after compaction recomputes the recorded revisions. |
| `SegmentNames.DigitsCompare` | engine/collection.go:1031-1033 | Zero-padded digits of equal width compare as the numbers do, and equal numbers leave the comparison to what follows. |
| `SegmentNames.SameWidth` | engine/collection.go:1031-1033 | Segment numbers printed with the same width sort by file name exactly as by value. |
| `SegmentNames.ShorterFirstIff` | engine/collection.go:1031-1033 | Of two segment numbers printed with different widths the shorter name sorts first if and only if its number does not exceed the longer one's leading digits. |
| `SegmentNames.BeforeTotal` | engine/collection.go:346 | Name order is a strict total order on segment numbers. |
| `SegmentNames.MillionFirst` | engine/collection.go:1031-1033 | Concretely, seg_1000000 sorts before seg_999999, while seg_100000 still sorts before seg_1000000. |
| `Swap.OpenFindsIff` | engine/collection.go:340-367 | Opening a directory that holds the files of a layout finds that layout, its last segment active, if and only if the file names sort as the segments are numbered. |
| `Swap.SmallNumbers` | engine/collection.go:340-367 | They do for every ascending layout whose last number is below a million. |
| `Swap.WrongActive` | engine/collection.go:346-367 | A concrete layout (segments 999999 and 1000000) of which an open takes the older segment for the active one. |
| `Swap.CommitKeepsInv` | engine/compact_manifest.go:35-41 | Writing the manifest moves the directory from the old layout to the rolling-forward state. |
| `Swap.RenameKeepsInv` | engine/compact_manifest.go:76-85 | A rename of the swap or of a recovery, including one whose source is already gone, keeps every new segment under exactly one of its two names. |
| `Swap.RunKeepsInv` | engine/compactor.go:128-217 | The directory invariant holds at every point of every run of a pass with crashes and recoveries interleaved anywhere and with lines appended to the active segment whenever the collection lock is free. |
| `Swap.AppendKeepsInv` | engine/compactor.go:146-217 | Appends between the manifest and the swap lock, and again between the swap and the end of the pass, keep the directory invariant, the active segment's file following them. |
| `Swap.CrashSafety` | engine/compact_manifest.go:52-115 | For a crash at any point, followed by any number of recoveries that may crash too, the recovery that completes leaves exactly the files of one layout, the new one if the manifest was written and the old one if not, with no manifest. |
| `Swap.RecoveryIsIdempotent` | engine/compact_manifest.go:52-115 | Once a recovery has completed, every later one, crashed and repeated or not, ends with the same directory. |
| `Swap.CrashKeepsView` | engine/compact_manifest.go:52-115 | After a completed recovery the files are those of the decided layout; an open finds it if and only if the names sort as the numbers do, and then replays to the live view from before the pass, save for reclaimed records, and up to sealing if the pass re-encrypted. |
| `Swap.CopyIsWhole` | engine/snapshot.go:61-110 | At every point of every run of a pass at which the collection lock is free (before the manifest, between manifest and first rename, after the swap) the segment files alone, without temps and manifest, are exactly those of the segments in memory. |
| `Swap.ActiveSurvivesIff` | engine/compactor.go:133-139 | The renames keep the active segment intact if and only if the pass produced fewer segments than its number, or the one renamed over it has the same contents. |
| `Swap.ActiveLost` | engine/compactor.go:133-139 | A concrete layout (one sealed segment that splits in two, active number 2) in which the active segment is overwritten. |
| `Compactor.Directory.FillTemps` | engine/compactor.go:383-437 | The survivors are split over temp segments in order, every one but the last at or over maxSize, each below it but for its last line, none empty, and no existing segment file is touched. |
| `Compactor.Directory.Rebalance` | engine/compactor.go:439-500 | Each segment left is one that was not below a tenth of maxSize, or was the last, or did not fit in one with its successor; or it is one that was and did, joined with its successor. The concatenated contents stay, temp files are distinct, none is empty, and no merged segment is larger than maxSize. |
| `Compactor.Directory.WriteCompacted` | engine/compactor.go:383-474 | The temp segments together hold exactly the survivors in order and lie beside the files that were there; through every state the directory goes through meanwhile no segment file changes. |
| `Compactor.Directory.SwapIn` | engine/compactor.go:128-217 | The states the directory went through since the pass began, one for each file operation, are those of a run of the crash model, in order, that ends committed with the manifest cleared; the files are the old ones after the renames in order, less the removals. |
| `Compactor.Directory.RenameTemps` | engine/compactor.go:152-170 | Renaming the temps in order takes the directory through exactly the states of the rename steps, after which none is outstanding, with the effect whose collision ActiveSurvivesIff decides. |
| `Compactor.Directory.RemoveListed` | engine/compactor.go:171-173 | Removing the listed segments takes the directory through exactly the states of the removal steps, after which none is outstanding. |
| `Compactor.WritingIsRun` | engine/compactor.go:86-217 | From its snapshot on, while it only writes temps and writers append to the active segment, the directory goes through states of the crash model's writing phase. |
| `Compactor.CrashAt` | engine/compact_manifest.go:60-100 | Wherever the process stops, at any state the directory was in, a run of the crash model ends there with the process down: what CrashSafety and Reopen start from. |
| `Compactor.Directory.AppendLines` | engine/segment.go:136-163 | Lines are appended one after the other to one file: the directory goes through each of the intermediate states and no other file changes. |
| `Compactor.SwapLands` | engine/compactor.go:152-173 | After the renames and removals every new segment lies under its final name with its contents, and no temp file is left. |
| `Compactor.Directory.RecoverCompaction` | engine/compact_manifest.go:60-100 | The states recovery takes the directory through are those of a run of the crash model from the directory as found, whichever order the renames are applied in; it reports whether there was a manifest. |
| `Compactor.Directory.RollForward` | engine/compact_manifest.go:60-100 | With a manifest, recovery applies the outstanding renames, deletes the listed segments and goes on to discard temps, the directory going through exactly the states of these steps. |
| `Compactor.Directory.DiscardTemps` | engine/compact_manifest.go:102-115 | Discarding leaves no temp file, the directory going through exactly the states of these steps. |
| `Passes.ResealAll` | engine/compactor.go:296-316 | Every surviving entry is re-sealed in place, or the pass is told that one could not be. |
| `Passes.CompactPass` | engine/compactor.go:72-226 | With no write in between: an installed pass keeps the collection valid, loses exactly the reclaimed records, changes the rest at most in sealing, and leaves exactly the files of the new segment list; a failed re-encryption changes nothing. A pass that yields as many segments as the active number installs them all the same, and the collection forgets exactly what the active segment said. A record without a deadline, or whose deadline lies after now, comes through an installed pass; one the active segment does not mention goes exactly when its deadline is at or before now. |
| `Passes.BeginPass` | engine/compactor.go:86-127 | The half of a pass without the lock: the survivors of the sealed segments, re-sealed, are in temp files and nothing else has changed; nothing happens if there is nothing sealed or an entry cannot be re-sealed. |
| `Passes.FinishPass` | engine/compactor.go:128-217 | The half under the lock, whatever was appended since: if no segment was sealed meanwhile and the new ones stay clear of the active number, the collection is valid and has lost exactly the reclaimed records, the directory holds exactly its files, and all its states since the pass began are a run of the crash model from the initial one. Otherwise the new list is installed all the same, and exactly which records come through is stated for both cases. |
| `Passes.InstallList` | engine/compactor.go:152-186 | What that leaves: on a collision a sealed segment with the active one's number and the view of the new segments alone; on a dropped segment the view of the new segments and the active one; all indexes rebuilt from it. |
| `Collisions.CollidedView` | engine/compactor.go:175-186 | After a pass overwrote the active segment the collection holds the surviving records of the sealed segments and nothing else, whichever new segment was read twice. |
| `Collisions.KeptIff` | engine/compactor.go:175-186 | For every record, when it comes through a pass that forgets the lines after its snapshot: not mentioned in them and not reclaimed; deleted there and not brought back; or written there just as the sealed segments had it. |
| `Collisions.LostIffTouched` | engine/compactor.go:175-186 | In a well-formed log a record those lines do not delete comes through if and only if they have no line of it and the pass does not reclaim it. |
| `Collisions.DeleteUndone` | engine/compactor.go:175-186 | A deletion in the overwritten active segment of a record the sealed segments hold is undone. |
| `Collisions.CollidedRevision` | engine/index.go:183-223 | The rebuilt index gives every record of the doubly read segment a revision one above the one its line carries. |
| `Collisions.RotationForgets` | engine/compactor.go:86-175 | A segment sealed by a rotation between a pass's snapshot and its swap is dropped from memory: for every record, deleted there or not, it comes through if and only if the active segment has a line of it or forgetting the dropped segment leaves it alone in the sense of KeptIff. |
| `Collisions.DeletedComesBack` | engine/compactor.go:86-175 | An instance: for every inserted record without a deadline, sealed before the pass and deleted in the dropped segment, the record is live again once the pass has installed its list, and nothing else differs. |
| `Collisions.ReopenRemembers` | engine/compactor.go:86-175 | Reopening the collection, whose files still include that segment, brings back everything up to reclaiming and sealing. |
| `Store.AppendKeepsCore` | engine/collection.go:562-567 | Appending a sound entry and setting or deleting its index entry keeps the index equal to Rebuild of the segments. |
| `Store.RotateKeepsCore` | engine/collection.go:959-1006 | A new active segment numbered past every other changes nothing the segments say. |
| `Store.CompactKeepsCore` | engine/compactor.go:175-186 | Replacing the sealed segments by compacted ones and rebuilding keeps the invariant and takes exactly the reclaimed ids out of the live view. |
| `Store.DueGone` | engine/compactor.go:366-379 | Compacting takes away no record without a deadline or with one after now, and every record the active segment does not mention whose deadline is at or before now. |
| `Store.Located` | engine/collection.go:801-826 | The index entry of a live record gives the segment and byte offset of the line that last wrote it. |
| `Store.OpenCore` | engine/collection.go:331-480 | A rebuilt index and a counter past every id of the segments make a valid collection. |
| `SecondaryIndexes.OrderTrans` | engine/secondary_index.go:138-144 | The typed key order is transitive within one kind. |
| `SecondaryIndexes.OrderTotal` | engine/secondary_index.go:138-144 | The typed key order is asymmetric, and of two different keys one always precedes the other. |
| `SecondaryIndexes.InsertKeepsView` | engine/secondary_index.go:156-168 | Inserting a new key at its search position keeps the ordered view strictly increasing and listing exactly the bucket keys. |
| `SecondaryIndexes.DropKeepsView` | engine/secondary_index.go:172-181 | Removing a key whose bucket emptied keeps the ordered view exact. |
| `SecondaryIndexes.FileOne` | engine/secondary_index.go:204-219 | Filing a new id under a key keeps buckets the inverse of the reverse map. |
| `SecondaryIndexes.UnfileOne` | engine/secondary_index.go:223-236 | Unfiling an id, dropping its bucket if that empties, keeps buckets the inverse of the reverse map. |
| `SecondaryIndexes.SearchSorted` | engine/secondary_index.go:148-152 | The binary search finds the position that splits the ordered view at a key. |
| `SecondaryIndexes.SearchBound` | engine/secondary_index.go:318-332 | The binary search of a range query finds the first key that reaches the bound, for strict and non-strict bounds. |
| `SecondaryIndexes.BuildSorted` | engine/secondary_index.go:398-408 | The rebuilt ordered view lists exactly the bucket keys in strictly increasing typed order. |
| `SecondaryIndexes.SecondaryIndex.constructor` | engine/secondary_index.go:129-136 | A new index is valid and empty. |
| `SecondaryIndexes.SecondaryIndex.Add` | engine/secondary_index.go:204-219 | Adding an id keeps buckets and reverse mutually inverse and the ordered view exact, and records exactly that value for the id. |
| `SecondaryIndexes.SecondaryIndex.Observe` | engine/secondary_index.go:186-192 | Folding a value of another type in makes the kind mixed and drops the ordered view. |
| `SecondaryIndexes.SecondaryIndex.OrderedInsert` | engine/secondary_index.go:156-168 | The ordered view gains exactly the new key. |
| `SecondaryIndexes.SecondaryIndex.OrderedRemove` | engine/secondary_index.go:172-181 | The ordered view loses exactly the key. |
| `SecondaryIndexes.SecondaryIndex.Remove` | engine/secondary_index.go:223-236 | Removing an id, tracked or not, keeps the index valid and forgets exactly that id. |
| `SecondaryIndexes.SecondaryIndex.Update` | engine/secondary_index.go:240-263 | Updating an id, tracked or not, keeps the index valid and records exactly the new value. |
| `SecondaryIndexes.SecondaryIndex.Lookup` | engine/secondary_index.go:266-279 | Lookup returns exactly the ids whose value renders to the key, each once. |
| `SecondaryIndexes.SecondaryIndex.Conflict` | engine/secondary_index.go:285-294 | A conflict is reported if and only if some other id holds the value. |
| `SecondaryIndexes.SecondaryIndex.LookupRange` | engine/secondary_index.go:296-343 | A range is served exactly when the index is empty, or its kind is the query value's and the operator a range; then exactly the ids whose value satisfies the comparison come back, each once. |
| `SecondaryIndexes.SecondaryIndex.Rebuild` | engine/secondary_index.go:347-394 | Rebuild ends with exactly the field's values of the replayed live records, as a valid index of the tightest kind. |
| `Writes.WriteKeepsUnique` | engine/collection.go:1264-1281 | A write that passed the uniqueness check leaves one record per value in every unique index. |
| `Writes.ClashIff` | engine/collection.go:1264-1281 | A write clashes if and only if another record is filed, on a unique field, under the text of the value it carries. |
| `Writes.LandedBelow` | engine/collection.go:959-1006 | A commit leaves the active segment below the size limit, seals it with the new lines exactly when they took it to the limit, and otherwise leaves them in it. |
| `Writes.InsertKeeps` | engine/quota.go:60-74 | An admitted insert keeps uniqueness and never takes the record count past MaxRecords. |
| `Writes.UpdateKeeps` | engine/collection.go:716-726 | An update that passed the uniqueness check keeps uniqueness and the record count. |
| `Writes.SyncedIff` | engine/collection.go:1324-1345 | After a write, which gives the indexes the plaintext and the segment the stored form, the live indexes still hold what a rebuild computes if and only if sealing left every indexed field alone. |
| `Batches.TxReplay` | engine/collection.go:1126-1190 | The lines a batch appends replay to its operations applied in order. |
| `Batches.BatchLeaves` | engine/collection.go:1126-1190 | A batch in plain terms: every record is as the last operation on it says (an insert's data and deadline at revision 1, an update's data, at the next revision and the old deadline if it is the only one, or gone), and a record no operation names is as it was. |
| `Batches.BatchClashIff` | engine/collection.go:1283-1321 | A batch clashes if and only if one of its writes carries the text of a unique value another record is filed under, or that an earlier write of the batch gave another record. |
| `Batches.TxRefused` | engine/collection.go:1045-1096 | Refused as not found exactly when an update or delete names a record that is not live; as a duplicate exactly when that is not so and the batch clashes; refused in any case if some write cannot be sealed. |
| `Batches.TxAcceptedPlain` | engine/collection.go:1071-1096 | Where nothing is sealed a transaction of insertions is accepted if and only if it does not clash and both limits leave room for its lines. |
| `Batches.TxAcceptedChanges` | engine/collection.go:1053-1096 | A transaction that inserts nothing is accepted, whatever the quota, if and only if every record it names is live, every write can be sealed and none clashes. |
| `Batches.ManyAccepted` | engine/collection.go:599-650 | A non-empty InsertMany is accepted if and only if every record can be sealed, none clashes and both limits leave room for exactly the lines it appends. |
| `Batches.EmptyBatch` | engine/collection.go:1045-1048 | An empty batch is accepted whatever the quota and does nothing. |
| `Batches.BatchIds` | engine/collection.go:1053-1061 | A batch whose updates and deletes name live records brings no record to life but those it inserts. |
| `Batches.OpIsSound` | engine/collection.go:1153-1167 | Every line of an accepted batch carries a sound revision where it lands, although earlier operations of the batch may have changed its record. |
| `Batches.ClaimMeans` | engine/collection.go:1283-1321 | While no operation clashed, all claims of a key in the batch come from one record. |
| `Batches.BatchCount` | engine/quota.go:60-74 | An accepted batch widens the collection by at most its number of inserts. |
| `Batches.BatchKeepsUnique` | engine/collection.go:1283-1321 | A batch without a clash leaves every unique field at one live record per value, if it was so before. |
| `Batches.AcceptedKeeps` | engine/collection.go:1045-1096 | A batch that passed every check keeps uniqueness and the record limit. |
| `Batches.BatchSynced` | engine/collection.go:1126-1190 | A batch whose sealing leaves the indexed fields alone keeps the live indexes equal to their rebuild. |
| `Batches.ManyFits` | engine/collection.go:640-650 | An accepted InsertMany takes the collection at most to its byte limit: it asked for exactly the bytes it appends. |
| `Batches.TxOverfills` | engine/collection.go:1071-1096 | For every encoding of lines, every collection and every record: where the plaintext line fits under the byte limit and the sealed one does not, a transaction inserting the record is accepted and takes the collection past the limit. |
| `Collections.RebuildIndex` | engine/index.go:190-223 | The rebuild loop computes Rebuild of the segments' lines. |
| `Collections.ReadAt` | engine/segment.go:182-206 | A read at an offset returns the entry that starts there, and nothing if none does. |
| `Collections.SegmentByNumber` | engine/collection.go:1019-1029 | The segment with the number is found wherever it is, sealed or active. |
| `Collections.MaxId` | engine/collection.go:484-495 | The counter ends at or past every id of the active segment. |
| `Collections.Collection.AppendEntry` | engine/collection.go:562-567 | The line lands at the end of the active segment, the index follows, and the live view is the old one with the entry applied. |
| `Collections.Collection.SidxPut` | engine/collection.go:1324-1345 | Every secondary index holds what it held with the record's new plaintext filed. |
| `Collections.Collection.SidxRemove` | engine/collection.go:1348-1354 | Every secondary index forgets exactly the record. |
| `Collections.Collection.Rotate` | engine/collection.go:959-1006 | The active segment is sealed and the new one is empty and numbered right after it, past every other. |
| `Collections.Collection.CheckUnique` | engine/collection.go:1264-1281 | A duplicate is reported if and only if a unique index files another record under one of the values. |
| `Collections.Collection.SizeBytes` | engine/quota.go:45-52 | The sum of all segment sizes. |
| `Collections.Collection.CheckQuota` | engine/quota.go:60-74 | The write fits if and only if neither configured limit would be passed. |
| `Collections.Collection.ReserveID` | engine/collection.go:1036-1040 | The id handed out was never used and is not live. |
| `Collections.Collection.Insert` | engine/collection.go:533-588 | Done if and only if the record can be sealed, repeats no unique value, and both limits leave room for its sealed line; a refusal leaves segments and indexes untouched. Then exactly one line under a fresh id: revision 1, the stored data, the epoch and the deadline given; the plaintext is filed in every index, the line published, the segment rotated if full, and the byte limit held. |
| `Collections.Collection.Update` | engine/collection.go:704-757 | Unsealable if and only if the data cannot be sealed, else not found if and only if the record is not live, else a duplicate if a value is taken, with nothing changed; otherwise exactly one line: the next revision, the stored data, the kept or the given deadline; its plaintext is filed in every index and the line published. |
| `Collections.Collection.Delete` | engine/collection.go:760-783 | A tombstone, published as such with the time given, if and only if the record is live; the view loses exactly it. |
| `Collections.Collection.ReadRecord` | engine/collection.go:1513-1522 | Reading through the index entry returns the live version. |
| `Collections.Collection.Get` | engine/collection.go:801-847 | The live version if it has no deadline or one after now; nothing if there is none or its deadline is at or before now. |
| `Collections.Collection.EnsureIndex` | engine/collection.go:1374-1403 | Refused exactly for an encrypted field; an existing index is kept; a new one starts as what rebuild computes from the segments. |
| `Collections.Collection.ResolveKey` | engine/keys.go:204-211 | Exactly the records filed under the key; none where no keyed write ever made the index. |
| `Collections.Collection.Upsert` | engine/keys.go:94-192 | Refused for the reserved field; revises a record filed under the key, keeping its deadline, or is admitted as a new one under the quota on the unsealed line; sealing comes last and may refuse too; a refusal leaves segments and indexes untouched. Once done, the record is found under the key and filed under the plaintext on every other field, with the stored data at the next revision and old deadline, or at revision 1 and the given one. The byte limit holds afterwards if and only if the sealed line fits. |
| `Collections.UpsertOverfills` | engine/keys.go:150-165 | The same of an upsert under a new key: it has to be accepted, and takes the collection past the limit. |
| `Collections.Collection.CompareAndSwap` | engine/collection.go:1491-1582 | Refused for the reserved field, for an unused key, if the record cannot be decrypted, if it fails the condition, for a duplicate, or if the new data cannot be sealed, with nothing changed. Otherwise the record was found under the key, readable and met the condition; it is still found under the key, filed under the new plaintext on every other field, with the stored data at the next revision and its old deadline. |
| `Collections.SwapMeans` | engine/collection.go:1491-1582 | When a swap may say unreadable or not found, and that it has to be done whenever some record is under the key and every such record can be read, meets the condition and may take the new data under the key. |
| `Collections.StampedFiles` | engine/keys.go:213-224 | A record written under a key is filed under that key and, on every other indexed field, under its plaintext; every other record stays filed as it was. |
| `Keys.NeverItsKey` | engine/keys.go:94-192 | Where no two records share a key, an upsert is never refused because of its key: a duplicate is always on another unique field. |
| `Keys.UpsertOnce` | engine/keys.go:94-192 | One upsert as the next one sees it: no two records share a key, the record under the key was revised if there was one and is a fresh one if not, and every other record is under the key it was. |
| `Keys.UpsertAgain` | engine/keys.go:94-192 | Two upserts under one key, both done: the second revises the record of the first, whose revision is then two up, with the first deadline and the second data. |
| `Keys.UpsertBoth` | engine/keys.go:94-192 | Upserts under two different keys, both done, leave two records, each found under its own key; without quotas and other unique fields both are done. |
| `Collections.Collection.CheckTargets` | engine/collection.go:1053-1061 | Reports a missing target if and only if an update or delete names a record that is not live. |
| `Collections.Collection.CheckBatchUnique` | engine/collection.go:1283-1321 | A batch is reported as clashing if and only if some operation repeats a value of another live record or of another record written earlier in the batch. |
| `Collections.Collection.CheckInserts` | engine/collection.go:1071-1096 | The inserts fit if and only if there are none or the quota leaves room for their number and plaintext bytes. |
| `Collections.Collection.NextEntry` | engine/collection.go:1126-1190 | The line an operation appends, its revision and deadline read from the index. |
| `Collections.Collection.ApplyOps` | engine/collection.go:1126-1190 | Every operation of an accepted batch is applied and published in order, derived state included. |
| `Collections.Collection.CommitTx` | engine/collection.go:1045-1218 | All or nothing: refused for a missing target, a clash, the quota or a record that cannot be sealed, in this order, with nothing changed; otherwise the log grows by exactly the operations in order. Uniqueness and the record limit are kept; the byte limit if and only if the sealed lines fit. Once accepted, every record is as the last operation on it says, in plain terms. |
| `Collections.Collection.InsertMany` | engine/collection.go:599-676 | All or nothing over the whole batch; once accepted the i-th id is the counter's next but i and leads to a record at revision 1 with the i-th stored data and the deadline given. A record that cannot be sealed refuses the batch, having used up the ids up to its own; uniqueness, the record limit and the byte limit are kept. |
| `Collections.Collection.ApplyEntry` | engine/replication.go:527-609 | The live view becomes that of idempotent apply: an entry whose effect is present changes nothing, any other is appended verbatim and the counter kept ahead of its id. |
| `Collections.Collection.Reap` | engine/ttl.go:79-129 | Appends exactly one tombstone for each record with a deadline at or before now, publishes none of them, and view and indexes lose exactly these records. |
| `Collections.Collection.InstallCompacted` | engine/compactor.go:175-214 | After the swap the index equals Rebuild and every secondary index its rebuild, and the view lost exactly the reclaimed records. No record without a deadline or with one after now is lost. |
| `Collections.Collection.InstallOver` | engine/compactor.go:175-214 | The install as performed when a pass breaks: the new list with the active segment read through its path, overwritten or not, and all indexes rebuilt from that; if the active number is among the new ones the numbers no longer ascend. |
| `Collections.Collection.Open` | engine/collection.go:331-480 | Opening with a rebuild, from a persisted counter or by scanning every segment when there is none, yields a valid collection whose view is the replay of its segments. |
| `Collections.OpenCollection` | engine/collection.go:331-480 | Every persisted secondary index comes back under its unique flag, holding what a rebuild computes. |
| `Collections.Collection.RestoreIndexes` | engine/collection.go:407-433 | Exactly the persisted indexes, rebuilt, with their flags. |
| `Runs.AnyRun` | engine/collection.go:533-1582 | Any sequence of operations (inserts, batches, updates, deletes, upserts, swaps, transactions in any interleaving, replicated applies while none is open, reaps, rotations, index creations, and passes begun and finished with any operations in between) is, call by call and with the answers given, the sequence of steps their specifications say, up to the end of a pass that overwrites the active segment or drops one. At its end the live index equals Rebuild of the segments and lists the live records, every sealed number is below the active one, the directory holds exactly the segments' files and the temps of a pass under way, and the secondary indexes equal their rebuild if sealing left indexed fields alone; and any two swaps that answered yes, expected the same revision and hit the same record have a deletion of it between them. Every record of every state in between is still there at every later one, up to sealing, unless an operation in between was about it. |
| `Runs.Step` | engine/collection.go:533-1582 | Every operation is the step its specification says, with the answer given: log, history, published lines, view, index contents, quota bytes, id counter, segments, open transactions and the pass under way; the files follow by appends to one file and creation of another. It fails to only at the end of a pass exactly when that pass breaks. |
| `Runs.RunTransaction` | engine/txmanager.go:42-75 | Begin, stage, commit and rollback are the steps their specification says; actions on a handle that is not open are refused. |
| `Transactions.StagedInOrder` | engine/txmanager.go:42-75 | While a transaction is open it holds exactly what the run staged under its handle, in order, whatever else the run did in between. |
| `Transactions.CommitLands` | server/grpc.go:926-970 | From begin to commit at any place in any run: an accepted commit leaves every record as the last operation staged on it says and every other as it was just before; a refused one changes no record; the handle is closed either way. |
| `Transactions.NotBeforeCommit` | engine/txmanager.go:42-75 | Beginning, staging and rolling back change no record, line or index, and a rolled-back handle is closed. |
| `Runs.FollowSegments` | engine/collection.go:959-1006 | After an operation the file of the old active segment gained exactly the operation's lines and at most one new empty file was created; no other file changed, and these are again the files of the segments. |
| `Steps.ReservedCommitted` | engine/collection.go:1045-1190 | Committing one open transaction brings only its own reserved ids to life. |
| `Steps.RanReserves` | engine/collection.go:1036-1040 | Whatever step a collection takes, every id reserved for an open transaction stays issued, not live and in that transaction only, as long as no replicated entry comes in while one is open. |
| `Steps.CompactKeepsTie` | engine/compactor.go:353-379 | Compacting a log without deadlines reclaims nothing. |
| `Runs.ValidAgrees` | engine/index.go:183-223 | The collection invariant gives location, revision, deadline and epoch of every index entry as Rebuild would compute them. |
| `Steps.OneWinner` | engine/collection.go:1445-1463 | Two committed swaps of one record that expected the same revision have a deletion of that record between them. |
| `Steps.SwapAnswers` | engine/collection.go:1491-1582 | A swap that answers yes has committed exactly one update, of the revision it expected; one that answers no has changed nothing at all. |
| `Steps.OneWinnerInRun` | engine/collection.go:1445-1463 | Over every run: of two swaps that expected the same revision and both answered yes, the later one committed later, and if they hit one record it was deleted in between; a losing swap left the state as it was. |
| `Steps.RanGrows` | engine/collection.go:533-1582 | No step takes back anything committed or published, and none lowers the id counter. |
| `Durability.RefusedWrite` | engine/collection.go:533-757 | A write that is answered no leaves the records, the log, the history and what was published as they were. |
| `Durability.InsertHolds` | engine/collection.go:533-588 | An insert that is answered yes has put a record under a fresh id: revision 1, the data and the deadline given. |
| `Durability.UpdateHolds` | engine/collection.go:704-757 | An update that is answered yes found the record live and left it with the new data at the next revision, under the kept or the given deadline. |
| `Durability.DeleteHolds` | engine/collection.go:760-783 | A delete answers yes exactly if the record was live, and it is gone either way. |
| `Durability.SwapHolds` | engine/collection.go:1445-1582 | A swap that is answered yes found a record under the key at the expected revision and left it with the new data one revision up, still under the key. |
| `Durability.UpsertHolds` | engine/keys.go:94-192 | After an upsert that is answered yes a live record under the key has the data. |
| `Durability.StepSpares` | engine/collection.go:533-1582 | No operation changes a record it is not about, that is, one it does not name, find under its key, name in the transaction it commits, or find past its deadline: the record stays exactly as it is, or up to sealing through the end of a pass. |
| `Durability.RecordStays` | engine/collection.go:533-1582 | Over every run a record is there, with its revision and deadline, at every point up to the first operation that is about it; and with its data where no pass ended in between. |
| `Durability.AcknowledgedLasts` | engine/collection.go:533-588 | An acknowledged insert lasts: at every later point of any run, up to an operation about its record, the record is there at revision 1 under its deadline, with the data given where no pass ended in between. |
| `Steps.RanExtends` | engine/collection.go:533-1218 | Every step but the end of a pass appends to the active segment and at most seals it, leaving the pass under way and the earlier segments alone. |
| `Steps.RanTidy` | engine/collection.go:1324-1354 | If sealing leaves the indexed fields alone, the secondary indexes stay what a rebuild computes, over every step. |
| `Steps.RanTied` | engine/collection.go:947-957 | A collection without deadlines and re-sealing stays, over every step, exactly what the lines it published replay to. |
| `Steps.RanOrderly` | engine/collection.go:704-757 | Every line a step commits is sound where it lands, so the history stays well-formed, and every live id came from the counter. |
| `Steps.RanLeads` | engine/collection.go:947-957 | A leader's collection keeps, over every step and in the middle of a pass, all a replica relies on: what it holds is what it published, in sound lines, filed in ascending segments. |
| `Recovery.OpenSegments` | engine/collection.go:340-367 | The loop lists the segments in the order of their sorted file names. |
| `Recovery.Restore` | engine/collection.go:340-367 | Restoring an archive gives every collection exactly what the segments its files were copied from say, whenever the file names sort as the segments are numbered. |
| `Recovery.Reopen` | engine/collection.go:331-480 | A collection reopened after a crash at any point of a pass and of any recoveries cut short is valid, its index and secondary indexes rebuilt, its files exactly its segments', and its records those from before the pass save for what a committed pass reclaimed. |
| `Replication.RingGrows` | engine/replication.go:102-122 | Appending to a ring with room keeps it the last entries in order. |
| `Replication.RingSlides` | engine/replication.go:102-122 | Overwriting the oldest entry of a full ring and moving the head keeps it the last entries in order. |
| `Replication.ServedIff` | engine/replication.go:138-144 | A subscription is accepted whenever every LSN above its start is still in the ring, and what an accepted one is given is gap-free if and only if that is so. |
| `Replication.CalmKeeps` | engine/replication.go:97-165 | While the counter is raised only before the first publish and under no live subscriber, every call keeps every feed counting up from its start without gap or repeat, to the current LSN unless the subscriber was killed. |
| `Replication.AfterOk` | engine/replication.go:97-188 | Every call, raises at any time included, keeps each subscription's backlog, received and queued entries one contiguous stretch of the published log, right after what its follower had, to its end unless killed. |
| `Replication.RaiseKeepsIff` | engine/replication.go:179-188 | Raising the counter keeps every feed gap-free if and only if it does not rise or nobody alive is subscribed. |
| `Replication.Broker.constructor` | engine/replication.go:71-84 | A new broker is valid, at LSN 0, with an empty ring. |
| `Replication.Broker.Oldest` | engine/replication.go:90-95 | The LSN of the oldest retained entry, or the next one to be assigned. |
| `Replication.Broker.Publish` | engine/replication.go:102-131 | The next LSN is assigned; the log gains exactly the entry under it; every live subscriber with room stays alive with the entry at the end of its queue, a full one is killed, a dead one is left alone. |
| `Replication.Broker.Backlog` | engine/replication.go:146-152 | The walk over the ring collects exactly the published entries above the LSN, in order. |
| `Replication.Broker.Subscribe` | engine/replication.go:138-165 | Accepted whenever everything above fromLSN is still in the ring, and on a log without jumps only then; the backlog is exactly the published entries above fromLSN, and the feed is gap-free if and only if all were retained. |
| `Replication.Broker.Receive` | engine/replication.go:218-230 | The oldest queued entry is delivered and joins what the follower got. |
| `Replication.Broker.Unsubscribe` | engine/replication.go:167-171 | That subscription is gone and every other is as it was. |
| `Replication.Broker.SetLSN` | engine/replication.go:179-188 | The counter ends at the larger of the two values; it keeps every feed gap-free if and only if it is not raised or nobody alive is subscribed. |
| `Replication.PromotedUnder` | engine/replication.go:457-500 | A follower that subscribed at LSN 0 to a node later promoted at any applied LSN is sent applied + 1 first: the gap, for every applied LSN. |
| `Replication.AnyRun` | engine/replication.go:86-188 | After any script of publishes, subscriptions, receives, disconnections and raises of the counter the broker is exactly what the script makes of it, call by call, the ring holds exactly the last entries, and each subscription was given exactly the published entries above its start in order; if no raise came after a publish or under a live subscriber, every feed counts up without gap or repeat. |
| `Follower.SnapshotIsBetween` | engine/snapshot.go:28-110 | A per-collection snapshot taken after the watermark was read leaves every record at some leader state between the watermark and the latest copy point. |
| `Follower.ReplicateStep` | engine/replication.go:527-609 | Idempotent apply of a leader entry takes over the leader's version or leaves the follower's record as it was, and never loses a record that was in step. |
| `Follower.ApplyAdvances` | server/replication.go:194-234 | Applying the entry right after the watermark advances the point every record is known to have reached. |
| `Follower.TailConverges` | server/replication.go:49-85 | Applying all entries from the watermark through any n at or past every copy point gives exactly the leader's state at n, although entries already in a copy are applied again, deletes included. |
| `Follower.Follower.constructor` | server/replication.go:49-85 | A bootstrapped follower is valid at the watermark that was read before the snapshot. |
| `Follower.Follower.Stream` | server/replication.go:194-234 | Any gap-free stretch of the feed from at or below the watermark keeps the follower valid and advances it; once past every copy point it holds exactly the leader's state. |
| `Follower.Follower.Restart` | engine/replication.go:343-352 | Resuming from an older persisted watermark keeps the follower valid. |
| `Follower.CatchUp` | server/replication.go:194-234 | A follower that may resume is brought to exactly the leader's state by the backlog; one that may not has lost history from the ring and is left as it was. |
| `LeaderNode.AnyRun` | engine/collection.go:947-957 | Any run of a collection beside any steps of others, with no deadlines and no re-sealing and up to the end of a pass that breaks, is a run of the node, the script step by step: the log grew by exactly what each step published, in order. The live view is the state the log gives the collection, and so is what a copy of its segment files replays to, also while a pass is under way. |
| `LeaderNode.CopySegments` | engine/snapshot.go:77-108 | The copy loop leaves out temps and manifest and ends with exactly the files of the segments, whatever else lies in the directory. |
| `LeaderNode.DoOne` | engine/collection.go:947-957 | One operation of the collection, with its lines published in commit order, is a step of the node: the log gained exactly these lines under the next LSNs and nothing else of the node changed. |
| `LeaderNode.NewNode` | engine/replication.go:71-84 | A new leader with one empty collection meets what every run starts from. |
| `Snapshots.MoveKeepsNode` | engine/replication.go:97-131 | When any collection takes any of its steps and publishes what it committed, the log split by collection stays what each has published, with consecutive LSNs, and every collection stays what it published. |
| `Snapshots.PassIsCell` | engine/snapshot.go:58-110 | In the middle of a pass, at every point at which the lock is free, the copied files are those of the segments in memory and replay to what the collection has published, before the new segments are in place as after. |
| `Snapshots.SnapshotOfRun` | engine/snapshot.go:28-110 | Whatever steps the collections take between the copies, the archive holds each as the log had it at a point of its own between the watermark and the end; collections that are not there hold nothing. |
| `Snapshots.LogIsCommitted` | engine/replication.go:97-131 | A log in which every collection's entries are well-formed is one a follower can converge on. |
| `Snapshots.WireCommutes` | server/grpc.go:861-896 | Dropping the policy epoch on the wire commutes with applying a record, since apply decides by id, operation and revision. |
| `Snapshots.WireCarries` | server/grpc.go:861-896 | Two views with the same form on the wire have the same ids and agree on every field of every record but the epoch. |
| `Snapshots.BootstrapConverges` | server/replication.go:49-85 | Every record above the watermark, applied in order to a snapshot of a leader's run, brings it to the leader's state at the end: the same ids, and for each the same operation, timestamp, revision, data and deadline. Only the policy epoch, which the wire drops, may differ. |
| `Snapshots.Bootstrap` | server/replication.go:49-85 | A follower that restores the files copied in a leader's run, opening and replaying each collection's segments, and streams what lies above the watermark ends valid, at the leader's last LSN, with the leader's ids and for each the same operation, timestamp, revision, data and deadline. |
| `Queries.StreamIsExact` | engine/scan.go:350-391 | The lines that pass the scan's tests are exactly the live, unexpired, matching records, each once. |
| `Queries.StreamLive` | engine/scan.go:354-391 | The full scan yields exactly the live, unexpired, matching records, each once. |
| `Queries.VisitCandidates` | engine/scan.go:325-348 | Of any candidate ids the unexpired matching ones come out, in ascending id order. |
| `Queries.IndexCandidates` | engine/scan.go:308-321 | An index answers exactly an eq filter, or a range on a field of one kind, the query value's; it then returns exactly the ids it files under a passing value, each once. |
| `Queries.ForEachMatch` | engine/scan.go:288-302 | Whichever path serves the filter, only live, unexpired, matching records come out, each once; all of them if and only if the index used files every one, as an index in sync with the stored records does. In plain terms: no row is past its deadline; an And matches when all its parts do, an Or when one does, and a test on numbers is the comparison of integers. |
| `Queries.RowsMean` | query/filter.go:49-155 | What exact rows mean for a filter of each form: for a test on a numeric field, exactly the live records past no deadline whose number satisfies the integer comparison; for And and Or, those that match all, or one, of the parts. |
| `Queries.ServedIff` | engine/scan.go:288-348 | A scan is exact if and only if the index it uses, if any, files every wanted record. |
| `Queries.Count` | engine/count.go:23-54 | The fast paths count every live record the filter accepts, or the index files, expired or not; the fallback counts what a scan yields. |
| `Queries.ScanSize` | engine/count.go:20-22 | Every scan result of a filter has the same length. |
| `Queries.CountIsScanIff` | engine/count.go:20-38 | A fast-path count equals the scan's length if and only if no counted record is past its deadline. |
| `Queries.ExpiredIsCounted` | engine/count.go:20-28 | A concrete record past its deadline that is counted and not scanned. |
| `Ordering.OneArrangement` | engine/scan.go:445-466 | A set has one sorted arrangement under a strict total order. |
| `Ordering.SortBy` | engine/scan.go:554-559 | Sorting distinct rows under the order gives that arrangement. |
| `TopK.RootIsMax` | engine/scan.go:561-565 | The root of the buffer is its largest row. |
| `TopK.SiftUp` | engine/scan.go:542-545 | Moving an appended row up restores the max-heap and permutes the rows. |
| `TopK.SiftDown` | engine/scan.go:546-550 | Moving a replaced root down restores the max-heap and permutes the rows. |
| `TopK.Buffer.Push` | engine/scan.go:538-551 | The buffer stays a max-heap of the smallest min(cap, n) of the n rows seen. |
| `TopK.Buffer.Sorted` | engine/scan.go:554-559 | The result is exactly the first min(cap, n) rows of the full sort of everything pushed, for every cap. |
| `Paging.SortTrans` | engine/scan.go:445-466 | The multi-field comparison, each field in its own direction, is transitive on rows of the same kinds. |
| `Paging.SortIsTotal` | engine/scan.go:445-466 | On homogeneous sort fields the ordering with the id tiebreak is a strict total order. |
| `Paging.InOrderIff` | engine/scan.go:445-466 | The sort order in plain terms: one row precedes another if and only if at the first field on which they differ it is smaller, or larger where that field sorts descending, or they differ on none and its id is smaller. |
| `Paging.NumbersSorted` | engine/scan.go:445-466 | On one numeric field sorted rows have the numbers ascending, or descending where so asked, and ids ascending where they are equal. |
| `Paging.CursorIsRow` | engine/scan.go:504-527 | Seeking past the cursor of a row is seeking past the row, absent sort fields included. |
| `Paging.Collect` | engine/scan.go:216-224 | Exactly the rows strictly after the cursor are collected. |
| `Paging.CollectTop` | engine/scan.go:226-241 | The retained rows are the first offset+limit rows of the full sort of the rows after the cursor, and all of these are counted. |
| `Paging.ScanOrdered` | engine/scan.go:205-281 | The page holds the rows of the full sort from offset past the cursor on, limit of them or as many as there are, in the sort order in plain terms; a next token is given exactly when rows remain; a token of another key count is refused. |
| `Paging.ScanUnordered` | engine/scan.go:173-198 | The rows of the natural order from offset on, up to limit. |
| `Paging.ScanStream` | engine/scan.go:109-171 | A sort or a page token makes the scan ordered, with the page ScanOrdered gives; without either it is one unordered slice and gives no token. |
| `Paging.PageThrough` | engine/scan.go:445-527 | For every filter, homogeneous ordering of at least one field and positive limit the pages of a fixed collection are exactly the sorted records the scan yields, each once; without a sort the one page holds as many of them as the limit allows. They come in the sort order in plain terms, and on one numeric field in numeric order. |
| `Paging.StableIsFound` | engine/scan.go:205-281 | However the collection changes between pages, a record that stays as it is throughout is on one of the pages. |
| `Paging.PagesAscend` | engine/scan.go:205-281 | However the collection changes between pages, every row of a later page lies strictly after every row of an earlier one, so nothing is repeated unless a change moved it forward. |
| `Segments.RecoverPartialLine` | engine/segment.go:73-131 | For every file, what is kept ends at its last newline, found by backward reads of growing tails. |
| `Segments.RecoveryIsExact` | engine/segment.go:73-131 | For complete lines followed by any newline-free tail, recovery keeps exactly the complete lines. |
| `Segments.FlatSize` | engine/segment.go:136-163 | Byte offsets are the running line lengths the collection model uses. |
| `Segments.ScanFrom` | engine/segment.go:238-274 | For every file the scan yields the decoded lines with offsets counted line by line, blank lines skipped, and fails on an oversized or corrupt line. |
| `Segments.ScannedFlat` | engine/segment.go:238-274 | A scan of a cleanly written segment yields its entries at the offsets they were appended at. |
| `Segments.ScanOffsets` | engine/index.go:225-261 | Whatever the sizes of the reads, the offsets found are the starts of the completed lines. |
| `Segments.StartsAgree` | engine/index.go:225-261 | Those starts are the offsets the entries were appended at. |
| `Segments.SegmentFile.Open` | engine/segment.go:50-66 | A segment cut short anywhere in its last append opens to exactly its complete entries. |
| `Segments.SegmentFile.Append` | engine/segment.go:133-163 | Refused exactly on a sealed segment or for a line no scan could read; otherwise the entry lands at the returned offset. |
| `Segments.SegmentFile.ReadAt` | engine/segment.go:180-206 | At the offset returned for an entry, that entry. |
| `Segments.SegmentFile.ScanAll` | engine/segment.go:208-274 | Every entry in order with its offset. |
| `Segments.SegmentFile.Offsets` | engine/index.go:190-223 | The offsets read back pair up with the entries, under any chunking. |
| `Segments.WriteSealed` | engine/compactor.go:402-425 | A segment written entry by entry and sealed holds exactly these entries; it fails if and only if some line is one no scan could read back. |
| `Watch.NoSilentGap` | engine/collection.go:896-945 | Two events delivered with no marker between them were emitted one right after the other. |
| `Watch.GapIsAnnounced` | engine/collection.go:896-945 | Any stretch of delivered events without a marker is a stretch of consecutive emits. |
| `Watch.MarkerMeansDrop` | engine/collection.go:921-945 | A delivered marker follows at least one event dropped since the previous item. |
| `Watch.Watcher.Emit` | engine/collection.go:925-945 | Not overflowed, with room or a receiver waiting, the event is queued; without, nothing is and the flag is set. Overflowed, nothing is queued unless the marker lands, and then the event follows it if there is still room or a receiver, which clears the flag. The stream stays honest. |
| `Watch.Watcher.Receive` | engine/collection.go:904-920 | The oldest queued item is delivered. |
| `Watch.NothingLost` | engine/collection.go:896-945 | A script that keeps the queue below the buffer size, or a receiver waiting, at every emit loses nothing: received and queued together are exactly its events, in order. |
| `Watch.AnyRun` | engine/collection.go:896-945 | Every interleaving of emits and receives, for every buffer size: the events emitted are those of the script, what is queued and received is what its calls make it, and the received stream is honest: in order, gaps announced. If every emit of the script finds room or a receiver, received and queued together are exactly its events and nothing overflowed. |
| `Encryption.NotRelocatable` | engine/encryption.go:137-144 | A blob opens under the field it was sealed for and under no other. |
| `Encryption.OpensIff` | engine/encryption.go:137-144 | It opens if and only if it is where it was sealed and its own key is still resolved by its id. |
| `Encryption.Encrypt` | engine/encryption.go:146-219 | The stored form is that of the policy; a value with the reserved marker is refused, and in record mode the reserved field. |
| `Encryption.SealOpens` | engine/encryption.go:151-395 | Under every policy, disabled included, a clean record is accepted and reads back as written. |
| `Encryption.StoredNow` | engine/encryption.go:151-219 | Every stored form is what the policy asks for: each value to be sealed is an envelope under the current key, record mode keeps nothing but the key and the indexed columns beside the blob, and every other value is in the clear. |
| `Encryption.ReadsSurvive` | engine/encryption.go:249-262 | A read depends on name, read mode and resolvable keys only, never on the write policy or epoch. |
| `Encryption.RoundTrip` | engine/encryption.go:151-395 | A clean record written under any policy of a history with one read mode and re-encrypted in any later eras, under later policies and keys, reads back as the original data in every era. |
| `Encryption.ReadsBackIff` | engine/encryption.go:151-219 | An accepted write reads back exactly if and only if it is not a disabled write of the reserved field on a record-mode collection. |
| `Encryption.FieldForgotten` | engine/encryption.go:298-315 | A concrete such record: accepted, and read back without the field. |
| `Encryption.LegacyReadsIff` | engine/encryption.go:358-395 | A record stored before encryption was configured reads back if and only if no value carries an envelope marker (fields mode), or it does not use the reserved field (record mode). |
| `Encryption.LegacyLost` | engine/encryption.go:298-395 | Concrete records of both kinds that do not read back. |
| `Encryption.StoredWell` | engine/encryption.go:151-219 | Every stored form has its key in the clear and a blob that repeats no column. |
| `Encryption.LazyIsFull` | engine/encryption.go:277-356 | Materializing a projection equals projecting the full materialization. |
| `Encryption.ClearNeedsNoKey` | engine/encryption.go:277-356 | A projection over fields stored in the clear succeeds under any keys, with the same result. |
| `Encryption.Materialize` | engine/encryption.go:257-316 | The full plaintext, decrypted value by value or merged from the blob, or a failure if a blob does not open. |
| `Encryption.MaterializeSome` | engine/encryption.go:277-356 | The projection form: only requested fields are opened, the blob only when one of them is no column. |
| `Encryption.FilterOnStored` | engine/encryption.go:401-465 | Any filter checkFilterFields accepts matches a current-policy record's stored form if and only if it matches its plaintext. |
| `Encryption.SealedDiffers` | engine/encryption.go:151-219 | What a field holds is the same in plaintext and on disk if and only if the policy does not seal that field of the record, for every field. |
| `Encryption.LiveIsRebuiltIff` | engine/encryption.go:151-219 | After a write the live indexes hold what a rebuild computes if and only if the policy seals no indexed field of the record. |
| `Encryption.UniqueForgotten` | engine/collection.go:1264-1281 | Concretely, a unique index on a field that is encrypted later refuses a repeated value while live and accepts it once rebuilt. |
| `EncryptionAdmin.Admin.SetEncryptionPolicy` | engine/encryption_admin.go:75-119 | A disable is always accepted and leaves encryption off. A fields policy is accepted if and only if it names a field, neither the key nor the reserved one, and the read mode fixed before is fields, or, the first time, a provider gives its current key; a record policy likewise with the record mode. It is then the policy in force, one epoch up; a refusal changes nothing; indexes are not looked at. |
| `EncryptionAdmin.Admin.RotateKey` | engine/encryption_admin.go:128-146 | The same policy one epoch up, refused on a collection never encrypted and when the provider gives no current key. |
| `EncryptionAdmin.Admin.Install` | engine/encryption_admin.go:158-188 | The installed encryptor joins the history. |
| `EncryptionAdmin.AnyRun` | engine/encryption_admin.go:75-146 | Over every run of policy changes and rotations exactly the accepted ones enter the history, in order, and each answer says whether it was; the read mode never changes and epochs strictly increase. |
| `EncryptionAdmin.HistoryIsOne` | engine/encryption_admin.go:75-146 | Any stretch of such a history satisfies the hypotheses of the round trip as long as keys stay resolvable. |
| `EncryptionAdmin.EncryptIndexed` | engine/encryption_admin.go:75-119 | For every field that may be encrypted the policy is accepted although an index is on the field, and the stored record then differs from what the index files. |
| `Migration.MigratedKeepsPlain` | engine/compactor.go:290-316 | Re-sealing an entry to the current epoch succeeds and keeps its plaintext, for every clean record. |
| `Migration.MigratedNow` | engine/compactor.go:290-316 | An entry of another epoch ends sealed as the policy asks, under the current key; one of the current epoch is left alone. |
| `Migration.PassSeals` | engine/compactor.go:106-124 | A re-encrypting pass over a collection with only tombstones outside the sealed segments leaves every record of another epoch sealed as the policy asks under the current key, and every other as it was. |
| `Migration.PassKeepsPlain` | engine/compactor.go:106-124 | A re-encrypting pass keeps the plaintext of every record it keeps, and keeps every unexpired one, whatever the active segment holds. |
| `Migration.SealAndReap` | engine/compactor.go:247-259 | Outside the sealed segments only tombstones are left, the view lost exactly the expired records, and the directory, in step before, is in step after. |
| `Migration.MigrateNow` | engine/compactor.go:228-262 | With no interleaved writes, when the pass is installed or had nothing to do, every live index entry and every line but tombstones ends at the current epoch and every unexpired record's plaintext is what it was; an aborted pass changes no record beyond reaping, and none aborts while every record is readable and clean. Of a pass that overwrites the active segment only what any such pass leaves is promised. Every record that was at another epoch is then sealed as the policy asks, under the current key. |
| `Migration.CrashKeepsPlain` | engine/compact_manifest.go:52-115 | A crash at any point of a migration pass, and of any recoveries cut short, changes no plaintext: what an open finds after a completed recovery reads as the records did. |

## Left out

- Sorting and comparing across types: `Compare` is not transitive there (`Values.CompareCycle`), so paging is proved for homogeneous sort fields only.
- Contains and regex filters, Aggregate, NaN and negative zero: library or floating-point behaviour.
- 64-bit wrap-around of ids, revisions, LSNs and epochs.
- Failed appends, fsync modes and errors, and a leader crash with an unpersisted LSN.
- Loading a checksum-valid index.json or sidx file as it stands: opening is modelled with a rebuild.
- Legacy lines without a revision or checksum, and sidx files without a kind.
- Interleavings inside a critical section, so a batch's entries get consecutive LSNs, and a secondary-index rebuild racing with writers.
- What a collection does after a pass has overwritten its active segment or dropped one: `Runs.AnyRun` stops there. Appends would go to an unlinked file.
- Replication of reaped tombstones and of dropped collections: followers are compared with the log as shipped.
- Promote's lag check and roles. Runs of the node (`LeaderNode`, `Snapshots`) start at LSN 0 and raise no counter.
- Keyed wrappers (InsertWithKey, UpdateByKey, DeleteByKey), DropIndex, Stats, idle expiry of transactions, index and meta persistence: they would only add easy members.
- The dirty-ratio and migration-pending gates of background compaction: they decide when a pass runs, not what it does.
- The page-token codec, base64url and JSON encodings, the AEAD cipher, key derivation and checksums: abstract inverse pairs or symbolic values.
- gRPC and REST handlers, authentication, limits, metrics, configuration, clients and the web UI.
- Watch.Watcher.Emit: does not model the loop over all watchers of a collection, since watchers are independent.
- Passes.CompactPass: does not model operations of the collection while the pass runs; `Passes.BeginPass` and `Passes.FinishPass`, which it composes, do.
