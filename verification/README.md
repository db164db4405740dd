# ParityDb, modelled in Dafny

A model of the parts of ParityDb where a paged or staged form has to agree with a plain map:

- **B-tree** (`keys`, `entries`, `trees`, `nodes`, `store`, `pairs`, `rebalance`, `kids`, `changes`, `gaps`, `updates`,
  `batches`, `btree`, `btree_size`, `btree_table`): nodes as arrays shifted in place, the one recursive pass that consumes a
  sorted batch of changes, and the loop at the root. The result is the old entry sequence with the batch applied.
- **Iteration** (`merge`, `iterator`): the stack of positions in the tree and its merge with the commit overlay.
- **Value table** (`slots`, `alloc`, `chains`, `chain_writes`, `value_table`, `counts`, `lookups`): slots, chains, free list
  and counts, over the bytes of the slots. A table is a map from head slots to records, and each operation changes one record.
- **Pipeline** (`records`, `log_stages`, `log`, `commits`, `db`): commit queue and overlay, log records and overlay, log files
  by stage, tables. A reader looks through all of them, and every step leaves what it gets unchanged, except a commit.
- **Recovery** (`recovery`, `log_images`): one crash in any state and an uninterrupted replay. Which commits survive, and
  when recovery can fail.
- **B-tree database** (`btree_slots`, `btree_reader`): the pipeline over a B-tree column whose header, nodes and values are
  the bytes of slots, from a commit to its lookup, shutdown, crash and restart included.
- **Hash index** (`words`, `index_entry`, `reindex`, `hash_column`): packing into 64 bits, and moving a table to a wider one.
- **Stored forms** (`bytes`, `masks`, `node_codec`, `log_codec`, `log_io`, `log_records`, `log_cuts`, `log_exact`): nodes,
  log records and log files cut off by a crash.

Classes follow the original's structs, with ghost fields or ghost parameters for what the fields stand for. Calls that reach
code outside the model are parameters: the address a value is stored at (any unused one), the checksum and the size of a
record in the log, and, for the pipeline in general, the records the columns plan for a commit (with the condition that
readers see the commit's changes) and how columns read slots and index entries (with the condition that nothing else matters
to them). For a B-tree column both are in the model, and meet the conditions.

Where the code does not do what one would expect:

- Replay takes the first record it finds as the next one to enact (`src/db.rs:157-158`). If the file being flushed was not
  synced yet and is lost without a trace, while the file after it survives and no older file is left, replay starts after
  the lost records. `Recovery.StartsLate` is that case, on the surviving files; `ReopenedIsPrefix` shows that replay is right
  in all others and wrong in this one, `LateStartPossible` says from which states it can come, `LateStartBreaks` gives an
  example.
- The flush before logs are dropped leaves out index tables queued for reindexing (`src/column.rs:334-341`), so a crash can
  lose their entries. `Databases.Past.missed` has the last flush of each table left out; recovery is proved for all cells
  that no record has written since and then left the log, `RedoExactly` says when the others are recovered,
  `QueuedIndexLost` gives an example where they are not.
- A log file cut off after one to eight bytes makes opening fail (`src/log.rs:552-564`). `FailurePossible` says from which
  states that can come.
- An iterator that finds a new record goes on above its last key even right after a seek (`src/btree/iter.rs:164`), so that
  an entry at the key sought is skipped if it is in the tree alone. After entries of the tree it still counts as just having
  sought, so that a commit to the key yielded last makes it yield that key again. `Renew` says exactly when, for both.
- Taking a reference off a free slot puts it on the free list a second time (`src/table.rs:795-801`), which is a circle then.
- A recovered key can only be found in the newest index where a stored key is zero behind its top fifty bits; other keys that
  share those bits are then not moved and are lost with the old table (`src/column.rs:400-402`). `WriteReindexPlan` says
  exactly when, for the single write; `ReindexOldest` and `PaddedKeyHides` say for which stored keys the whole move is safe.
- Validation compares a page number with the number of entries of the table, 64 times the number of pages
  (`src/index.rs:480`).
- A comment gives the recovered prefix 54 bits (`src/index.rs:254`); the code restores 50.
- Merging the last two children writes the emptied right node again after it was removed (`src/btree/node.rs:424-429`). The
  node is unreachable; it is all that a batch leaves unreclaimed (`Trees.Neat`).

## Model

| member | source | states |
|---|---|---|
| `Keys.LessIsBytewise` | src/btree/node.rs:800-814 | keys are ordered as byte strings: the first byte that differs decides, and a proper prefix comes first |
| `Entries.LastChangeDecides` | src/btree/mod.rs:454-488 | after a batch a key has the value of the last change to it, or none if that deletes it |
| `Entries.OthersStay` | src/btree/mod.rs:454-488 | and a key without a change is as before |
| `Entries.MapOfSorted` | src/btree/btree.rs:47-91 | a sorted sequence stands for the map of exactly its entries |
| `Entries.ApplySorted` | src/btree/node.rs:118-194 | one change keeps an entry sequence strictly sorted |
| `Entries.ApplyTwice` | src/btree/node.rs:76-84 | of two changes to one key only the later one counts |
| `Entries.ApplyAllIsUpdateAll` | src/btree/btree.rs:47-91 | changing a sorted sequence and changing the map it stands for are the same, for every batch |
| `Gaps.ApplyRun` | src/btree/node.rs:76-84 | of a run of changes to one key only the last counts, so skipping to it loses nothing |
| `Nodes.Node.Position` | src/btree/node.rs:800-814 | the loop finds the key's separator, or the first one above it, with every separator before it below the key |
| `Nodes.Node.NumberSeparator` | src/btree/node.rs:787-798 | counts exactly the separators in use |
| `Nodes.Node.ShiftFrom` | src/btree/node.rs:738-762 | shifting in place opens one hole in the separators and one in the children, left or right of it, and keeps all others in order |
| `Nodes.Node.RemoveFrom` | src/btree/node.rs:764-785 | shifting back closes exactly the hole, whatever is left in the child array beyond the last child |
| `Nodes.Node.Split` | src/btree/node.rs:690-736 | a full node keeps the part before the split point; the new one gets the rest, with the inserted separator and child at their places |
| `Nodes.Node.InsertNode` | src/btree/node.rs:196-248 | inserting a separator and the child right of it: in place if there is room, else the middle of the nine goes up and the halves hold four each, contents in order |
| `Nodes.BorrowLeft` | src/btree/node.rs:333-353 | the array form of borrowing from the left sibling moves exactly one separator through the parent, and its child |
| `Nodes.BorrowRight` | src/btree/node.rs:368-387 | the same from the right sibling |
| `Nodes.MergeInto` | src/btree/node.rs:400-425 | the merge loop leaves left, separator and right in the left node, in order |
| `Pairs.BorrowedLeftOrder` | src/btree/node.rs:333-353 | borrowing from the left leaves the in-order sequence of the pair as it was |
| `Pairs.BorrowedRightOrder` | src/btree/node.rs:368-387 | borrowing from the right leaves the in-order sequence of the pair as it was |
| `Pairs.MergedOrder` | src/btree/node.rs:400-431 | merging leaves the in-order sequence of the pair as it was |
| `Stores.Store.WriteExisting` | src/btree/node.rs:46-53 | rewriting an entry keeps its address or moves it to an unused one |
| `Rebalancing.FetchChild` | src/btree/node.rs:816-828 | a child read back holds the subtree stored at its address |
| `Rebalancing.WriteChild` | src/btree/node.rs:39-55 | writing a child stores its subtree and updates the parent's pointer if the address changed; nothing else is touched |
| `Rebalancing.BorrowFromLeft` | src/btree/node.rs:333-353 | with storage: both siblings are in balance again, the in-order sequence is unchanged |
| `Rebalancing.BorrowFromRight` | src/btree/node.rs:368-387 | with storage: both siblings are in balance again, the in-order sequence is unchanged |
| `Rebalancing.MergeSiblings` | src/btree/node.rs:389-432 | with storage: one sibling and one separator less, the merged node in balance, the in-order sequence unchanged, although an unreachable node is written |
| `Rebalancing.Rebalance` | src/btree/node.rs:314-433 | a child short of exactly one separator is repaired, by the left sibling if that can spare one, else by the right one, else by a merge with the right one, or with the left one if it is the last child: all children in balance, at most one separator less, the in-order sequence unchanged |
| `Changes.RemoveLast` | src/btree/node.rs:454-482 | takes the greatest entry out of a subtree: the rest in order, all leaves at the same depth, at most one separator short at the top, and says so |
| `Updates.InsertSeparator` | src/btree/node.rs:118-248 | a separator goes into a node, splitting it if it is full; order, shape and storage of the result |
| `Updates.InsertLeaf` | src/btree/node.rs:152-188 | a new value is stored and its separator inserted at its place in a leaf |
| `Updates.UpdateValue` | src/btree/node.rs:189-192 | a present key gets the new value, at the same or a new address |
| `Updates.RemoveLeaf` | src/btree/node.rs:260-287 | a separator and its value leave a leaf |
| `Batches.RemoveInner` | src/btree/node.rs:260-284 | a separator of an inner node is replaced by the greatest entry below it, rebalancing on the way |
| `Batches.Descend` | src/btree/node.rs:131-150 | a change below a child is taken up by the parent: pointer update, a split's separator, or rebalancing |
| `Batches.Insert` | src/btree/node.rs:118-194 | after an insertion at or below the node its sequence is the old one with the changes consumed so far applied |
| `Batches.Remove` | src/btree/node.rs:250-312 | the same for a deletion, of a present or an absent key |
| `Batches.Latest` | src/btree/node.rs:76-84 | the cursor skips to the last change of a key and no further |
| `Batches.ChangeNode` | src/btree/node.rs:68-116 | the recursive pass: however many changes a node consumes before it returns, its sequence is the old one with exactly those applied, it is at most split in two or short of one separator, and only its own storage was touched |
| `BTrees.FetchRoot` | src/btree/btree.rs:115-122 | the root read back is the stored tree, or an empty leaf if there is none |
| `BTrees.BTree.Raise` | src/btree/btree.rs:58-68 | a split root gets a new root above it, one level deeper, same sequence |
| `BTrees.BTree.Collapse` | src/btree/btree.rs:69-77 | a root without separators is replaced by its only child, one level less, same sequence |
| `BTrees.BTree.WriteSortedChanges` | src/btree/btree.rs:47-91 | for every stored tree and every key-sorted batch, duplicates included: the new tree's sequence is the old one with the whole batch applied; all leaves at exactly `depth`, 4 to 8 separators below the root, keys strictly sorted, no address used twice; storage outside the old tree untouched, and every entry of the old tree that is not in the new one freed, apart from nodes emptied by a merge |
| `BTreeSizes.ColumnSize` | src/btree/mod.rs:58-59 | a stored tree of depth d has no more than 9^(d+1) - 1 entries and, with d positive, no less than 2 * 5^d - 1: from four to eight separators in every node below the root, all leaves at that depth |
| `BTreeTables.StableSortFold` | src/btree/mod.rs:454-474 | sorting a change set by key, stably, does not change what it does to a map |
| `BTreeTables.GetIn` | src/btree/node.rs:484-500 | a lookup ends at the value of the key exactly when the key is in the tree |
| `BTreeTables.BTreeTable.WritePlan` | src/btree/mod.rs:454-488 | the column's map after a change set in any order is the old map with the changes applied in order; the stored header follows the root, and what the new tree does not use is freed as in `WriteSortedChanges` |
| `BTreeTables.BTreeTable.Get` | src/btree/mod.rs:204-213 | a lookup in the stored tree answers as the column's map |
| `Merging.MergeIsApplyAll` | src/btree/iter.rs:76-151 | merging overlay and backend, overlay winning and deletions suppressing, yields the backend with the overlay applied |
| `Merging.FromKeyIs` | src/btree/iter.rs:244-272 | from a key on means the entries whose keys are not below it |
| `Merging.AfterKeyIs` | src/btree/iter.rs:244-272 | above a key means the entries whose keys are above it |
| `Merging.MergeFromKey` | src/btree/iter.rs:64-74 | starting both sides at a key starts the merge at that key |
| `Iteration.BTreeIterState.Next` | src/btree/iter.rs:200-242 | the stack of positions yields the tree's entries one by one, in order, none left out |
| `Merging.Resumed` | src/btree/iter.rs:153-171 | going on above a key in the tree and from it in the overlay is going on from the key if and only if it is not in the tree or the overlay changes it, and going on above it if and only if the overlay gives it no value |
| `Iteration.BTreeIterState.Seek` | src/btree/iter.rs:244-272 | after a seek exactly the entries from the key on are left, or with `after` those above it |
| `Iteration.OverlayNext` | src/db.rs:1037-1058 | the next overlay change after the last key, or at it right after a seek |
| `Iteration.BTreeIterator.constructor` | src/btree/iter.rs:43-62 | a new iterator has the whole merged sequence before it |
| `Iteration.BTreeIterator.Next` | src/btree/iter.rs:76-151 | yields the first of the remaining merged entries and leaves the others |
| `Iteration.BTreeIterator.Seek` | src/btree/iter.rs:64-74 | leaves exactly the merged entries from the key on |
| `Iteration.CollectFrom` | src/btree/iter.rs:64-151 | seek and then next until the end terminates and yields exactly the merged entries from the key on, each once, in order |
| `Iteration.BTreeIterator.Renew` | src/btree/iter.rs:153-171 | what is left after a logged record and new commits, for every old and new tree and overlay: everything above the last key, or, right after a seek, everything from it on if and only if the key is not in the tree alone; a walk that ended without a key stays at the end |
| `Iteration.SeekThenRecord` | src/btree/iter.rs:64-171 | a seek, a logged record and a step: the first entry from the key on, except that an entry at the key is skipped exactly if it comes from the tree alone |
| `NodeCodec.NodeLayout` | src/btree/mod.rs:87-134 | the bytes of a node: children and separators in turn, addresses in eight bytes, a key size below 255 in one byte and others in a mark and four |
| `NodeCodec.DecodeOfEncode` | src/btree/mod.rs:87-134 | decoding an encoded node gives its separators and children back, for short and long keys |
| `NodeCodec.WriteNode` | src/btree/mod.rs:336-355 | the writing loop produces that encoding |
| `NodeCodec.ReadNode` | src/btree/node.rs:595-617 | the reading loop is the decoder, on any bytes |
| `Slots.SlotLayout` | src/table.rs:205-274 | the bytes of a slot: the marks of free slots, heads and middle parts with their links, or the size with the compression bit |
| `Slots.SizeIsNoMarker` | src/table.rs:251-266 | a size field, compressed or not, is never a tombstone or a multipart marker, and reads back |
| `Slots.ReadsAs` | src/table.rs:205-274 | a buffer that starts with a stored slot reads as that slot, whatever follows it: kind, link, flag, contents and length |
| `Allocation.SpotIsNotUsed` | src/table.rs:612-637 | the slot handed out next is in no chain |
| `Allocation.LastFreedFirst` | src/table.rs:612-637 | the slot freed last is used first, and without a free one the table grows by one slot |
| `Allocation.Disjoint` | src/table.rs:612-757 | no slot is in two chains, twice in one, or in a chain and free |
| `Allocation.Conservation` | src/table.rs:612-757 | live and free slots together are exactly the `filled - 1` slots after the header |
| `Allocation.LiveIsChained` | src/table.rs:612-757 | a slot is live exactly when some chain has it |
| `ValueTables.ValueTable.NextFree` | src/table.rs:612-637 | takes the top of the free list, else a fresh slot; the free list stays linked |
| `ValueTables.ValueTable.ReadNextPart` | src/table.rs:599-610 | reads the link of a part, and nothing for a last part |
| `ValueTables.ValueTable.ClearSlot` | src/table.rs:740-757 | a slot becomes the top of the free list; only its own record goes; a slot that is free already is put there again |
| `ValueTables.ValueTable.ClearChain` | src/table.rs:725-738 | every slot of a chain is freed in order, and only that record goes; a slot that is free already is put on the free list again |
| `ValueTables.FreeListLoops` | src/table.rs:740-757 | once a free slot is freed again the free list leads from it back to itself |
| `ValueTables.ValueTable.WriteParts` | src/table.rs:656-720 | the loop writes a value along old and new slots and frees what is left over: the chain holds exactly the value, every other record is as before |
| `ValueTables.ValueTable.OverwriteChain` | src/table.rs:639-723 | at a new head or over a shorter or longer chain: the table holds the new record there and is otherwise unchanged; old slots are reused from the head, missing ones added, leftover ones freed in order; the record takes as few slots as it fits, the first marked as its head and the others as its middle |
| `ValueTables.ValueTable.WriteInsertPlan` | src/table.rs:759-767 | inserts a record at a head not in use |
| `ValueTables.ValueTable.WriteReplacePlan` | src/table.rs:769-779 | replaces one record |
| `ValueTables.ValueTable.WriteRemovePlan` | src/table.rs:781-788 | removes one record and frees its slots; a slot that is free already is put on the free list again |
| `ValueTables.ValueTable.ChangeRef` | src/table.rs:803-846 | changes the count of one entry, saturating at the lock value; value bytes and other entries untouched; nothing happens where the count would drop to 0 and to a tombstone |
| `ValueTables.ValueTable.WriteIncRef` | src/table.rs:790-793 | one reference more, and nothing for a tombstone |
| `ValueTables.ValueTable.WriteDecRef` | src/table.rs:795-801 | one reference less; the entry goes with its last one; a tombstone is freed again |
| `ValueTables.ValueTable.Query` | src/table.rs:405-489 | following a chain from any slot answers from what is there on: value, flag, count and key check, for a head slot its record; nothing at a free slot |
| `ValueTables.AnswerOfNew` | src/table.rs:506-521 | what was inserted is what a query finds, with a count of one |
| `Lookups.AnswersOwnKey` | src/table.rs:1007-1041 | among keys of one page and one partial key, at every width of the index, a query is answered by the entry of its own key and by no other |
| `Lookups.NewLayout` | src/table.rs:677-700 | a new entry is a count of one, the bytes of the key from the seventh on, and the value |
| `Lookups.FetchOfNew` | src/table.rs:1043-1060 | a query that fetches the partial key gets the bytes of the key from the seventh on, the value and a count of one |
| `Lookups.InsertThenQuery` | src/table.rs:405-489 | a value inserted for one key and asked for with another of the same place is found exactly if the keys are the same |
| `ValueTables.ValueTable.CompletePlan` | src/table.rs:922-936 | the header slot is written when the fields have changed; records are unchanged |
| `ValueTables.ValueTable.RefreshMetadata` | src/table.rs:906-920 | the fields read from the header are the current ones, a fresh header counting as one slot |
| `Counts.CountIsTally` | src/table.rs:803-846 | over any run of increments and decrements the stored count is the mathematical one while that stays between 0 and the lock value |
| `Counts.FreedAtZero` | src/table.rs:795-801 | the decrement to 0 removes the entry for good and touches no other |
| `Counts.LockedAtMax` | src/table.rs:820-829 | the increment to the lock value locks the count for good: the entry is never removed |
| `Counts.EveryRun` | src/table.rs:795-846 | every run of count changes stays between 0 and the lock value, or leaves them at some first change, at 0 or at the lock value |
| `Counts.LockedStays` | src/table.rs:828-839 | no run changes an entry whose count is at the lock value |
| `Counts.RunOutcome` | src/table.rs:795-846 | the outcome of every run of every entry with a count: unchanged if it was locked, else gone if the tally reached 0 first, locked if it reached the lock value first, else there with its tally; nothing else changes |
| `Records.SeeIsNewest` | src/log.rs:94-118 | reading through the overlay, else the tables, shows every cell as it will be once all pending records are enacted, pages shared by several records included |
| `Records.EnactPart` | src/index.rs:457-477 | writing any part of the oldest pending record, masked page entries included, changes neither what is pending nor what is seen |
| `Records.ClearFirst` | src/log.rs:650-675 | clearing an enacted record by its id leaves exactly the overlay of the later records |
| `Records.LastWrite` | src/db.rs:574-603 | after the same records two tables agree on every cell they agreed on before or that some record wrote |
| `LogStages.LogWriter.InsertValue` | src/log.rs:348-355 | a planned slot write adds exactly that write |
| `LogStages.LogWriter.InsertIndex` | src/log.rs:337-346 | a planned page change adds exactly the one entry, and the logged page keeps showing the tables elsewhere |
| `LogStages.EndedValid` | src/log.rs:603-648 | a finished record is the newest of the log, the last pending, and in the overlay; ids run on and file ids stay distinct |
| `LogStages.EndReadValid` | src/log.rs:650-675 | a record read to its end is the oldest pending; it leaves the rest pending and in the overlay |
| `LogStages.AdvancedValid` | src/log.rs:678-711 | when a flushed file starts being read no record is lost or reordered; the file before it was read to its end, and with syncing on only synced files are read |
| `LogStages.RotatedValid` | src/log.rs:677-724 | the first half of a flush keeps all of this, with the flush lock held at its end |
| `LogStages.ClosedValid` | src/log.rs:713-724 | closing the current file loses and reorders nothing |
| `LogStages.CleanedPool` | src/log.rs:758-778 | the pool after cleanup is what it had and the truncated files, in order of their ids, up to sixteen of the lowest |
| `LogStages.CleanedValid` | src/log.rs:758-778 | cleanup takes whole read files off the front; pending records and the overlay stay; no two files share a name |
| `LogStages.KilledValid` | src/log.rs:815-826 | removing the pool and the file read last leaves exactly the pending records |
| `Logs.Log.EndRecord` | src/log.rs:603-648 | appends to the current file, else to that of the lowest id in the pool, else to a new one; the size of the file is the total of what was appended to it since it was opened |
| `Logs.Log.ReadNext` | src/log.rs:784-809 | gives the oldest pending record of the file being read, or notices its end |
| `Logs.Log.EndRead` | src/log.rs:650-675 | moves on by one record and clears it from the overlay |
| `Logs.Log.Rotate` | src/log.rs:677-724 | takes the flush lock; the current file is closed and handed on exactly if it is larger than the minimum, and the flushed one is read next; all records and all pending records stay |
| `Logs.Log.Sync` | src/log.rs:726-735 | marks the file to flush as synced, releases the lock and changes nothing else |
| `Logs.Log.FlushOne` | src/log.rs:677-736 | both halves: a file larger than the minimum is closed, handed on and synced, any other stays as it is |
| `Logs.Log.CleanLogs` | src/log.rs:758-778 | exactly the oldest `count` files leave the queue; the pool is in order of ids and keeps up to sixteen, none of a higher id than one given up |
| `Logs.Log.KillLogs` | src/log.rs:815-826 | removes the pool and the file read last |
| `Commits.ThroughQueue` | src/db.rs:191-214 | reading through the commit overlay gives what applying the queued commits would |
| `Commits.CleanFirst` | src/db.rs:1127-1137 | cleaning a commit by its id leaves exactly the overlay of the commits after it |
| `Commits.UpdateTwice` | src/db.rs:333-442 | applying a commit's changes again changes nothing, so a logged commit may still be in the overlay |
| `Databases.QueueShows` | src/db.rs:191-214 | whatever the stage of each commit, a read gives the latest committed value |
| `Records.ViewIsNewest` | src/log.rs:94-118 | to a reader of slots and index entries the overlay over the tables looks like the state after all pending records |
| `Databases.LogShows` | src/log.rs:94-118 | so what the columns read through it is what they would read off the newest state |
| `Databases.Db.CellIsNewest` | src/log.rs:94-118 | every slot and every index entry reads as in the newest state |
| `Databases.Db.GetIsLatest` | src/db.rs:191-214 | in every reachable state a read, through the commit overlay, the log overlay and the tables, gives the latest committed value |
| `Databases.Db.PartlyEnacted` | src/db.rs:574-603 | and so it does when any part of the oldest pending record has been written to the tables |
| `Databases.Db.Commit` | src/db.rs:280-331 | a commit is visible at once and is the only change |
| `Databases.Db.PopCommit` | src/db.rs:342-366 | taking a commit off the queue changes no read |
| `Databases.Db.LogCommit` | src/db.rs:368-413 | logging it changes no read, given that its record carries out its changes; it is the commit that the newest record carries |
| `Databases.Db.CleanCommit` | src/db.rs:415-424 | cleaning it off the overlay changes no read |
| `Databases.Db.LogReindex` | src/db.rs:448-496 | a reindexing record changes no read, given that it moves entries only |
| `Databases.Db.WriteCell` | src/db.rs:574-603 | one write of a record to the tables changes no read |
| `Databases.Db.EnactRecord` | src/db.rs:574-603 | the tables are written cell by cell in any order; all of it is written and no read changes |
| `Databases.Db.EnactLogs` | src/db.rs:498-649 | enacts the oldest pending record, once, notes its id, and changes no read although tables and overlay change |
| `Databases.Db.FlushLogs` | src/db.rs:651-660 | a file larger than the minimum is closed, handed on and synced, any other stays as it is; changes no read |
| `Databases.Db.FlushColumns` | src/column.rs:334-341 | what has been enacted is in the table files then, but for the index tables queued for reindexing |
| `Databases.Db.CleanLogs` | src/db.rs:662-675 | with synced data the columns are flushed and all read files go, otherwise all but sixteen; changes no read |
| `Databases.Db.KillLogs` | src/db.rs:708-726 | from every state of queue and files the shutdown sequence logs the queued commits in order and leaves every commit in the flushed tables or in one complete, unread log file, which holds exactly the records logged during the shutdown and leads from the tables to the newest state |
| `Recovery.ReplayAllLogs` | src/log.rs:495-540 | opening and replaying what a crash left yields the records up to the first torn or out-of-sequence one, and the id of the last of them as the last enacted; fails on a file too short for a record id |
| `Recovery.ReplayStops` | src/db.rs:498-575 | of any files: one whose records are in sequence, with fewer than nine bytes behind them, is replayed whole and the next goes on from it; of any other the records in sequence are replayed, and nothing after it |
| `Recovery.RedoExactly` | src/db.rs:686-697 | replay recovers a cell if and only if a replayed record writes it or it is right already |
| `Recovery.RedoAt` | src/db.rs:686-697 | replaying over a cell torn in any way since its table was last flushed, records enacted before included, gives the state after the last record, unless a record that has left the log wrote it since |
| `Recovery.ReplayedIsIntact` | src/db.rs:498-575 | wanted from its first id on, the log is replayed exactly up to the first loss |
| `Recovery.ReopenedIsPrefix` | src/db.rs:157-158 | what is replayed is a prefix of the log if and only if replay does not start late |
| `Recovery.CrashRecovery` | src/db.rs:498-697 | with synced logs and data, after a crash in any state replay gives the state after a number of records, in id order, that includes every leading synced one, unless it starts late: for every cell that no record has written after its last flush and then left the log, and for the others exactly where a replayed record writes them or they are right already |
| `Recovery.DbRecovery` | src/db.rs:498-697 | the same, all of it, for every state the database's operations reach |
| `Recovery.CommitsRecovered` | src/db.rs:498-697 | to every reader that ignores the entries of the index tables some flush has left out, what is read after the crash and the replay is what the oldest commits, each of them whole, have made of the database; the ones lost are those logged or queued after them |
| `Recovery.LateStartPossible` | src/log.rs:495-540 | some crash makes replay start late if and only if the oldest log file is not synced and another one follows it |
| `Recovery.FailurePossible` | src/log.rs:552-564 | some crash leaves files that cannot be opened if and only if some file is not synced |
| `Recovery.WhenRecoveryFails` | src/log.rs:677-736 | on the stages: replay can start late exactly while the oldest file is being synced and the next one is open, and opening can fail exactly while a file is being synced or appended to |
| `Recovery.OpenFails` | src/log.rs:552-564 | a state of the pipeline and a crash after which opening fails |
| `Recovery.QueuedIndexLost` | src/column.rs:334-341 | an entry of an index table queued for reindexing that no flush covers and a crash loses after its log is gone |
| `Recovery.LateStartBreaks` | src/db.rs:157-158 | a crash where replay starts late and the result is no state the database was in |
| `Recovery.ShutdownReopens` | src/db.rs:708-726 | opened again after the shutdown sequence the database replays exactly what was not enacted, and its columns hold every commit |
| `IndexEntries.PackUnpack` | src/index.rs:48-95 | an entry gives back its address and partial key, and is not the empty entry, for widths 16 to 49 |
| `IndexEntries.UnpackPack` | src/index.rs:48-95 | an entry is made again from its parts |
| `IndexEntries.EntryLayout` | src/index.rs:48-95 | where the bits go: the page number is the top bits of the key prefix, the rest but the last fourteen is in the entry above the address |
| `IndexEntries.AddressParts` | src/index.rs:101-121 | an address is 256 times the slot plus the table, and gives both back |
| `Masks.BitIs` | src/index.rs:466-474 | bit `i` of a mask is the lowest one once the mask is shifted right by `i` |
| `Masks.PickAt` | src/log.rs:286-292 | the entry of a set bit comes after those of the bits set below it |
| `IndexEntries.RecoverTop50` | src/index.rs:254-264 | page number and entry restore exactly the top fifty bits of the key |
| `IndexEntries.PrefixIsEnough` | src/column.rs:823-830 | the recovered prefix belongs on the same page with the same partial key as the full key, at every width |
| `IndexEntries.SamePlace` | src/index.rs:75-78 | same page and same partial key imply the same top fifty bits |
| `IndexEntries.KeyDetermined` | src/column.rs:731-732 | page, partial key and the 26 bytes stored with the value determine the key |
| `Reindexing.FindEntry` | src/index.rs:243-252 | the first entry from a position on whose partial key fits |
| `Reindexing.SearchIndex` | src/column.rs:414-438 | the first entry whose partial key and stored key bytes fit, if any |
| `Reindexing.PlanInsert` | src/index.rs:327-367 | an entry goes over the one named or to the first free place of its page, and nothing else changes; fails exactly on a full page or an address too wide |
| `Reindexing.RecoveredIsPadded` | src/index.rs:254-264 | a recovered key has zeros behind its top fifty bits and belongs where its entry was |
| `HashColumns.MatchIsPadded` | src/column.rs:400-402 | a recovered key is only found where a stored key is itself zero behind its top fifty bits |
| `HashColumns.PaddedIsHit` | src/column.rs:400-402 | and it is found there |
| `HashColumns.HitIsSame` | src/column.rs:400-402 | where no other address is that of the recovered key, a search that hits for it hits its own address |
| `HashColumns.PaddedKeyHides` | src/column.rs:392-412 | the condition of the move is exact: for any stored keys, one of which is made of the prefix of an address and zeros, runs a move after which that address is in no table |
| `HashColumns.ZeroKeyHides` | src/column.rs:392-412 | a column with the key of 32 zeros where another key is found before a reindex and in no table after it |
| `HashColumns.HashColumn.TriggerReindex` | src/column.rs:368-390 | the newest table is queued, a wider empty one takes its place, nothing found before is lost |
| `HashColumns.HashColumn.WriteReindexPlan` | src/column.rs:392-412 | after it the address is found exactly if it was before or the recovered key was not; nothing found before is lost and nothing else is found; where the key was found nothing changes; the table is widened exactly if the key was not found and its page is full, and the call fails exactly if that table is the widest already |
| `HashColumns.HashColumn.Reindex` | src/column.rs:807-842 | a batch is the entries of the pages it covers, each once and in order; it ends after the page that makes it 8192 or more |
| `HashColumns.HashColumn.ProcessReindex` | src/db.rs:448-496 | a round of batch and writes moves all pages gone through, says whether they were the last, and puts nothing into the tables that was not there |
| `HashColumns.HashColumn.DropIndex` | src/column.rs:844-857 | the oldest table goes if it is the one named, and nothing happens otherwise |
| `HashColumns.HashColumn.ReindexOldest` | src/column.rs:807-857 | once all pages are gone through, nothing is found that was not found before, and every address found in any table for any key is found in the tables that are left, even if the newest one was widened midway, unless another address is that of the key made of its prefix and zeros; none is lost if no stored key is of that form |
| `LogCodec.TakeItemOf` | src/log.rs:162-226 | an item is read back whole and nothing behind it is touched |
| `LogCodec.TakeRecordOf` | src/log.rs:267-315 | a record is read back with the same items in the order they were written, whatever it is; exactly its bytes are used; the checksum covers the same bytes |
| `LogFiles.WriteEntries` | src/log.rs:286-292 | the mask loop writes exactly the masked entries, lowest first |
| `Masks.SpreadOfPicks` | src/index.rs:466-474 | entries picked off a page and put into another with the same mask end up where they were |
| `Masks.SpreadKeeps` | src/index.rs:466-474 | the entries that are not masked stay as they are |
| `LogFiles.SlotPayload` | src/table.rs:848-904 | every slot a value table writes tells its own length in the log |
| `LogFiles.PagePayload` | src/index.rs:440-493 | every masked page can be logged |
| `LogFiles.FlushToFile` | src/log.rs:267-315 | the writing loop, mask loop included, produces the encoding of the planned changes and the right byte count |
| `LogFiles.LogReader.Read` | src/log.rs:228-235 | exactly the bytes read go into the checksum |
| `LogFiles.LogReader.ReadEntries` | src/index.rs:479-493 | the mask loop reads eight bytes for every set bit |
| `LogFiles.LogReader.ValidatePayload` | src/table.rs:881-904 | reads a slot whole, its first two bytes telling how much follows |
| `LogFiles.LogReader.EnactPayload` | src/table.rs:848-879 | uses exactly the bytes that validation uses, and writes exactly those over the start of the slot |
| `LogFiles.LogReader.ValidatePage` | src/index.rs:479-493 | reads a page whole, and refuses a page number not below the number of entries |
| `LogFiles.LogReader.EnactPage` | src/index.rs:440-477 | reads the same item as validation, puts exactly its entries at the places the mask names and leaves the others |
| `LogFiles.OverwrittenKeeps` | src/table.rs:848-879 | of a slot only its first bytes are overwritten, and of the other slots nothing |
| `LogFiles.OverwrittenReads` | src/table.rs:848-879 | a slot just enacted reads as what was written, whatever was there before |
| `LogFiles.LogReader.ReadRecord` | src/db.rs:514-573 | validating a record is the decoder, checksum and page range included, on any bytes |
| `LogRecords.EnumeratedIsEnacted` | src/log.rs:278-308 | enacting the items of a record one by one, in any order, is enacting the record |
| `LogRecords.LoggedIsEnacted` | src/log.rs:267-315 | so a record written to a log file in any order and read back enacts as the record |
| `LogCuts.CutRefused` | src/db.rs:527-573 | a record cut off anywhere is refused, whatever the checksum function |
| `LogCuts.CutFile` | src/db.rs:527-573 | of a file cut off after any number of bytes exactly the records before the cut are read, and less than a record is left |
| `LogExact.RecordExact` | src/log.rs:162-226 | bytes are accepted as a record exactly if they are the record as it is written, of items that can be written; so whatever is accepted has its checksum, kinds, lengths and page numbers right |
| `LogExact.ChecksumCovers` | src/log.rs:196-210 | of accepted bytes the last four used are the checksum of all those before them |
| `LogExact.ChecksumDecides` | src/log.rs:196-210 | a record with any four bytes for its checksum is accepted exactly if they are its checksum |
| `LogExact.WrongChecksumStops` | src/db.rs:527-573 | reading a file stops at a record with a wrong checksum, and has read every record before it |
| `LogExact.StopsAtDamage` | src/db.rs:527-573 | reading a file stops at the first bytes that are no record, and has read every record before them |
| `LogExact.PageRange` | src/index.rs:479-493 | a page number is accepted exactly if it is below sixty-four times the number of pages that the table's id tells |
| `LogExact.ItemLayout` | src/log.rs:278-308 | the bytes of an item: kind, table, slot or page, and of a page the mask and the entries in order |
| `LogExact.RecordLayout` | src/log.rs:267-315 | the bytes of a record: mark and id first, end mark and checksum last |
| `LogImages.CutSurvives` | src/db.rs:527-573 | so a log file cut off after any number of bytes is what recovery takes a crash to leave of it, and replaying what is read of it enacts the records it has whole |
| `LogImages.CutHeader` | src/log.rs:552-564 | no byte left, fewer than nine, or enough to tell the id of the first record: exactly the three cases of opening a log file |
| `BTreeSlots.BytesDecide` | src/btree/mod.rs:87-155 | two entries of a kind, headers, nodes or values, that are stored as the same bytes are the same |
| `BTreeSlots.HeaderLayout` | src/btree/mod.rs:136-141 | the header is eight bytes of the root's address and four of the depth |
| `BTreeSlots.SlotOfAddress` | src/index.rs:101-121 | an entry is in the slot and table its address is made of, the header in slot 1 of table 0 |
| `BTreeSlots.ValueLooksLikeNode` | src/btree/node.rs:665-688 | but a value can have the bytes of a node, which nothing tells apart |
| `BTreeSlots.NodeStorable` | src/btree/mod.rs:318-345 | every node of a stored tree can be read back, addresses and key lengths that fit their fields being all it takes |
| `BTreeSlots.SameTree` | src/btree/node.rs:816-828 | what the slots have below an address is one tree, although values can look like nodes |
| `BTreeSlots.ContentsAre` | src/btree/mod.rs:204-213 | slots that hold a header and a tree below it are read as that tree's map |
| `BTreeSlots.LookupRespects` | src/btree/mod.rs:204-213 | reading a tree depends on nothing but the slots, so it is a reader that the pipeline admits and that index tables do not matter to |
| `BTreeSlots.BTreeCarries` | src/btree/mod.rs:454-488 | the record of the slots that a batch has changed carries out the batch's changes, as the pipeline asks of records, and leaves slots that hold the new tree |
| `BTreeReaders.GetBelow` | src/btree/node.rs:484-500 | node by node down the slots, each decoded on the way, a lookup ends at the value of the key exactly when the key is in the tree |
| `BTreeReaders.Get` | src/db.rs:191-214 | a lookup through the commit overlay, else through the header and down the tree in log overlay and tables, gives the latest committed value in every state |
| `BTreeReaders.LogBatch` | src/db.rs:368-413 | a commit written to the tree and logged: the column's map has its changes applied, the slots hold the new tree, and no read through the database changes |
| `BTreeReaders.ProcessCommits` | src/db.rs:333-442 | every queued commit is planned, logged and cleaned off, in order, with no read changed |
| `BTreeReaders.Shutdown` | src/db.rs:708-726 | from every state of queue, log and tables the shutdown sequence, planning included, leaves a column that holds every commit; the file left holds exactly the records logged during the shutdown |
| `BTreeReaders.Load` | src/btree/node.rs:816-828 | the entries reached from the header are the whole column |
| `BTreeReaders.BTreeRecovery` | src/db.rs:498-697 | after a crash in any state the replayed slots hold a tree of the oldest commits, each of them whole and all those of synced log files included |
| `BTreeReaders.Restart` | src/db.rs:140-189 | opening fails exactly on a log file too short; otherwise the database started on the replayed tables holds these commits, record ids go on after the last record replayed, and every result here applies to it again |
| `BTreeReaders.RestartWhole` | src/db.rs:140-189 | opened again after a shutdown, the database holds every commit, numbers its records on from there if any were left to replay, and every result here applies to it again |
| `BTreeReaders.Create` | src/btree/mod.rs:151-172 | a new database with an empty column starts in such a state |

## Left out

- Columns with `ref_counted` or `preimage` set, as seen through the B-tree and the commit overlay; counts are modelled in the
  value table only.
- Threads, locks and waiting: the pipeline is a state machine of atomic steps. `Logs.Log.Rotate` requires that the flush lock
  is free and that the reader it would wait for is done. Beginning and ending a record are one step of the single log worker.
- Queue limits and byte counts of the commit and log queues, which only decide when to wait.
- Hash columns as maps: the write plans of `src/column.rs:459-551` leave an unindexed value behind on a retry, and do not
  retry for an existing key. They enter as the condition on planned records.
- The choice of a size tier and compression (`src/column.rs:243-271`), hashing of keys, checksums beyond detecting a torn
  record, and the file system: truncating and removing log files are taken as durable.
- Deletions while reindexing; `HashColumns` works on fixed stored keys.
- Index tables dropped or missing at replay (`src/column.rs:594-604`). A `DROP_TABLE` item of a log record writes no cell: the
  entries of the table stay, and no reader looks at them.
- A second crash during replay: replay deletes logs without flushing the tables (`src/log.rs:573-596`).
- After a restart file numbers start again at 0, where the original goes on after the highest one found. Nothing depends on them
  but which file of the pool is used first.
- Log files are taken in the order of their first record ids, which is what opening sorts them into.
- In the B-tree, branches for children that are missing although the depth says they are there, and the flags `modified` and
  `moved` of single separators and children, which only mark the node as changed.
- An iterator while only the commit overlay changes: `Renew` is about a record logged as well. The original promises
  nothing for either.
- Format versions before 7, statistics, metadata, migration and the tools.
- ValueTables.ValueTable.OverwriteChain: slot numbers are required to stay below 2^64, which the original does not check.
- ValueTables.ValueTable.WriteInsertPlan: slot numbers are required to stay below 2^64.
- ValueTables.ValueTable.WriteReplacePlan: slot numbers are required to stay below 2^64.
- BTreeSlots.BTreeCarries: an entry of the column is the contents of one slot there; size fields and chains of slots are in
  `value_table`.
- BTreeReaders.LogBatch: the column is the only one of the database. Addresses, key lengths and the depth are unbounded
  numbers; where one does not fit its field of eight or four bytes nothing is logged and the result says so. The original
  has addresses of 64 bits, and would cut off the length of a key of 4 GiB.
- HashColumns.HashColumn.WriteReindexPlan: does not go beyond the widest table, where the original would shift by 64 bits.
