# The in-memory database of DAST, modelled and proved

This project models `memdb/`, the multi-version in-memory database under the DAST transaction system, and
two loop-and-arithmetic cores of `deptran/`. It states what the code promises its callers and proves it for
every input, every run and every nesting depth.

**Snapshots.** A `snapshot_sortedmap` and its read-only snapshots share one multimap of versioned cells. The
members of a group form a circular doubly linked list; the writer tombstones, erases directly when it is
alone, and collects garbage. The simple thing this stands for is *every snapshot is a private copy*.
`SnapshotRun.RunRefinesCopies` proves exactly that for every run of creations, inserts, batches, erases, range
erases, snapshots, copies, assignments, destructions and collections over any number of groups. `SnapshotMap` is the
same structure as heap objects with links, loops and in-place updates, and each method is proved to take the
step that the theorem is about.

**Transactions.** `Txn2PL` and `TxnNested` buffer inserts, updates and removals over the transaction below.
`TxnRun.ProgramCorrect` proves that any program of reads, writes, inserts, removals, queries, begins, commits
and aborts, at any nesting depth, answers every question and leaves every open level as immediate execution
would. `TxnObjects` has the transaction objects, their ordered staged rows, and the commit loops;
`TxnCursor` has `MergedCursor`.

**Secondary indices.** `IndexTable` keeps base table, index tables and master index in agreement through the
notify, remove, write, re-insert, notify protocol, and proves that an index query yields what a scan selects.

**Rows, versions, hashes, counters, ids.** `RowStore` packs columns into byte buffers; `Chronos` keeps old
versions per column; `XxHash` streams; `IntHash` mixes words; `Odometer` enumerates primary keys; `Ids` packs
coordinator and transaction ids.

The modules with `Model`, `Group`, `Cells`, `Layout`, `Stack` or `Run` in their names work on values. The
classes in `SnapshotMap`, `TxnStore`, `TxnObjects`, `TxnCursor`, `IndexTable`, `RowStore`, `Chronos`,
`XxHash`, `Odometer` and `Ids` follow the code's objects and loops, and their contracts tie the new state to
the value-level step.

Modelling choices:

- A row is an identity (a natural number, also its address for `MergedCursor`) with a column map. A master
  index and a multimap node are identities too. Memory is never reused.
- `version_t` is unsigned, so the sentinel `-1` of the snapshot code is a maximum value. "No version" and "not
  removed" are options here, and versions do not wrap.
- `std::multiset` is a binary tree that a search descends; the trees have any shape. The ordered containers of
  `TxnObjects`, `TxnStore` and `SnapshotMap`, which stay in order, are sequences: `Bounds.DescentFinds` says that in
  an ordered tree of any shape the descent ends where the sequence search does.
- A prefetched entry of a range is kept by value. `SnapshotCursor.Kept` states that the node it points into stays.
- Keys are compared by value. A double is a real number in key order, and 64 bits in row storage.
- One object of `TxnObjects.Txn` with no base is `TxnUnsafe`. A buffer over it is `Txn2PL`, whose commit
  loops do to tables and rows what the three operations of `TxnUnsafe` do. A buffer over a buffer is
  `TxnNested`.
- Clocks, locks, reference counts, the process id used as a hash seed and endianness detection do not appear;
  the seed is a parameter and words are little-endian.

What turned out not to hold of the code, with the exact condition under which it does:

- A lone writer's `erase(..., first_match_only)` can erase a leftover tombstone or another key
  (`SnapshotGroup.FirstMatchMissesVisible`, and `SnapshotRun.FirstMatchMissesAfterRun` by a legal run);
  `SnapshotGroup.EraseFirstExact` says when it is right.
- `gc_run` under a live range can erase the node one of its three iterators stands on
  (`SnapshotCursor.CollectCanDangle`); `SnapshotCursor.RangeThroughGc` says when it does not, and
  `SnapshotMap.SortedMap.GcRunBeside` says so of the objects. The writer's destructor can do the same
  (`SnapshotCursor.RangeThroughLeave`, `SnapshotMap.SortedMap.DestroyMeBeside`).
- A `TxnNested` that writes a row before inserting it brings the old value back at commit
  (`TxnDetached.DetachedWriteComesBack`); `TxnDetached.CommitExact` says when commit is faithful.
- A pending write of a key column is read back but not found by a query (`TxnDetached.KeyWriteMisleadsQuery`).
  Writing the key of a staged row changes the row but not its place among the ordered staged rows, and a query
  can miss it (`TxnDetached.RekeyedRowIsMissed`). `TxnQuery.LevelsExact` says when all queries of a table are
  right at every level, `TxnQuery.QueriesExact` when they are at one level above staged rows in order, and
  `TxnSlots.FoundExact` when they are in one set of staged rows, whatever the shape of its tree.
- A version written twice to a `ChronosRow` column changes its past later (`Chronos.TwiceWritten`);
  `Chronos.UpdateExact` and `Chronos.WriteReadBack` say when a write is recorded and read back.
- A copied `ChronosRow` has lost its past; `Chronos.CopyReads` says at which versions it can be read.
- Coordinator ids beyond 32 bits collide; `Ids.PackExact` says for which numbers of clients and partitions no two
  coordinators that can exist together do.
- A row whose first string column is hidden takes the end of that string from before its index, and a copy of
  a row with hidden strings forgets them; `RowLayout.FillExact` and `RowLayout.Copied` say when neither happens.

Where comments in the code and the code disagree, the model follows the code. The shortcut branch of the
snapshot copy constructor cannot be reached, because a map that is not read-only is its group's writer. The
direct branch of `erase(range)` cannot be reached either, because the range is itself a member. `ver_high` of
`gc_run` starts at the maximum and is never lowered, so cells newer than every member stay. A comment in
`deptran/client_worker.cc` says that a coordinator id modulo the number of partitions is not the partition;
within 32 bits it is (`Ids.PackPartition`).

## Model

| member | source | states |
|---|---|---|
| SnapshotRun.RunRefinesCopies | memdb/snapshot.h:142-571 | over every legal run, batches included, from any sound world of groups, what all live maps show together is what private copies show after the same calls |
| SnapshotRun.SnapshotNeverChanges | memdb/snapshot.h:254-260 | a snapshot shows to the end of any run exactly what its source showed when it was taken, whatever is written, erased, copied, collected or destroyed |
| SnapshotRun.StepCorrect | memdb/snapshot.h:142-571 | each call keeps the invariant of all groups and is one step of the private copies |
| SnapshotRun.StepEnabled | memdb/snapshot.h:262-571 | a call is possible on the shared structure exactly when it is possible on copies, first-match erases aside |
| SnapshotRun.EraseThroughRangeCorrect | memdb/snapshot.h:365-384 | opening a range, erasing it and dropping it takes from the writer exactly its entries in the interval and is noticed by nobody else |
| SnapshotRun.FirstMatchMissesAfterRun | memdb/snapshot.h:319-322 | create, two inserts, a snapshot, an erase and the end of the snapshot lead to a map whose first-match erase leaves its one visible entry in place |
| SnapshotGroup.InsertCorrect | memdb/snapshot.h:262-268 | the writer gains the entry where a plain multimap puts it, the invariant holds, no other member notices |
| SnapshotGroup.AppendCorrect | memdb/snapshot.h:278-300 | a batch under one version that no other member has is the same insertions one by one, and no other member notices |
| SnapshotGroup.InsertAllCorrect | memdb/snapshot.h:278-300 | whoever else is a member, a new version and a batch under it give the writer the entries one by one, and nobody else notices |
| SnapshotGroup.EraseCorrect | memdb/snapshot.h:302-363 | tombstones and direct erasure give the writer the same view, the multimap without the picked entries; no other member notices |
| SnapshotGroup.EraseFirstCorrect | memdb/snapshot.h:306-318 | while shared, a first-match erase takes exactly the first visible match away |
| SnapshotGroup.EraseFirstExact | memdb/snapshot.h:302-363 | a first-match erase takes the first visible match away if and only if the group is shared or the cell it erases is the right one |
| SnapshotGroup.FirstMatchMissesVisible | memdb/snapshot.h:319-322 | a sound state in which the lone writer's first-match erase leaves the visible entry in place |
| SnapshotGroup.EraseBetweenCorrect | memdb/snapshot.h:365-384 | the writer loses exactly what it saw between two positions, nobody else notices |
| SnapshotGroup.JoinCorrect | memdb/snapshot.h:517-539 | a new member at the left of its source sees what the source sees, versions still rise round the ring, nobody else notices |
| SnapshotGroup.GcCorrect | memdb/snapshot.h:467-495 | a collection changes no live member's view and leaves no cell removed below every live version |
| SnapshotGroup.LeaveCorrect | memdb/snapshot.h:541-571 | a member leaves, the writer's leaving may collect, and whoever remains sees what it saw |
| SnapshotGroup.LeaveCollects | memdb/snapshot.h:545-563 | a leaving member collects exactly when it is the writer, at least 16 changes were counted, and they are at least half of the cells, rounded down |
| SnapshotGroup.ChangesCounted | memdb/snapshot.h:262-327 | the counters hold the inserts, and the entries that shared erases took from the writer, since the last collection or snapshot of the writer |
| SnapshotGroup.VisitRests | memdb/snapshot.h:517-571 | a snapshot of the writer that joins and leaves changes only the garbage counters |
| SnapshotGroup.CopyGroupCorrect | memdb/snapshot.h:165-172 | a full copy holds exactly the batch it was filled with |
| SnapshotCells.InsertVisible | memdb/snapshot.h:262-268 | the version that sees a new cell sees it in multimap order |
| SnapshotCells.TombstoneOld | memdb/snapshot.h:21-28 | every version before a removal still sees what it saw |
| SnapshotCells.TombstoneNew | memdb/snapshot.h:306-318 | the version of the removal sees the multimap without the picked entries |
| SnapshotCells.DropFirstView | memdb/snapshot.h:348-361 | erasing the first match without looking at visibility is right if and only if that match is visible or no visible match exists |
| SnapshotCells.EraseLowerBoundView | memdb/snapshot.h:321-322 | erasing at the lower bound removes the first visible match exactly when the cell there is that match, or neither is visible |
| SnapshotCells.CollectView | memdb/snapshot.h:482-492 | dropping cells removed below a version changes no view from that version on |
| SnapshotRange.BracketHolds | memdb/snapshot.h:407-455 | a cell lies between a query's two iterators exactly when its key lies in the interval |
| SnapshotRange.RangeView | memdb/snapshot.h:407-455 | a range holds exactly the visible entries of its interval, in order, and the rest of the map is the entries outside |
| SnapshotCursor.RangeThroughInsert | memdb/snapshot.h:31-95 | through any insert a live range keeps its three iterators in order, all it spans, and all it has still to yield, forward or in reverse |
| SnapshotCursor.RangeThroughInsertAll | memdb/snapshot.h:278-300 | the same through any batch |
| SnapshotCursor.RangeThroughErase | memdb/snapshot.h:302-363 | the same through any keyed erase, which can only tombstone beside a range |
| SnapshotCursor.RangeThroughEraseFirst | memdb/snapshot.h:306-318 | the same through any first-match erase |
| SnapshotCursor.RangeThroughEraseBetween | memdb/snapshot.h:365-384 | the same through any range erase |
| SnapshotCursor.RangeThroughGc | memdb/snapshot.h:467-495 | a collection leaves a live range intact if and only if none of its three iterators stands on garbage, and then it has the same entries still to yield |
| SnapshotCursor.RangeThroughLeave | memdb/snapshot.h:541-571 | another member's leaving keeps a live range intact, unless it is the writer's, it collects by itself, and an iterator stands on garbage |
| SnapshotCursor.IterAfterCollect | memdb/snapshot.h:484-492 | an iterator survives a collection if and only if its node is not garbage |
| SnapshotCursor.SeenAfterCollect | memdb/snapshot.h:36-44 | no node that a live version sees is ever collected, so the node behind a prefetched entry outlives every collection, even one that takes an iterator's node |
| SnapshotCursor.CollectCanDangle | memdb/snapshot.h:467-495 | a sound group with a live range that has yielded one entry and stands before a tombstone: it has one more to yield, and a collection takes its node away |
| SnapshotMap.SortedMap.MakeMeSnapshotOf | memdb/snapshot.h:517-539 | four link writes put the object at the left of its source in a ring whose `prev` and `next` are inverse, with the source's version |
| SnapshotMap.SortedMap.Splice | memdb/snapshot.h:529-532 | the link fields of all members after the join |
| SnapshotMap.SortedMap.LowestVersion | memdb/snapshot.h:468-480 | the walk round the ring ends and has found the lowest live version |
| SnapshotMap.SortedMap.GcRun | memdb/snapshot.h:467-495 | the two loops do one collection of the value model |
| SnapshotMap.SortedMap.SnapshotCount | memdb/snapshot.h:243-252 | the walk ends and counts the members |
| SnapshotMap.SortedMap.SanityCheck | memdb/snapshot.h:573-603 | every check of the sanity walk holds of every live group: at most one drop, the writer in the ring and at the top |
| SnapshotMap.SortedMap.Insert | memdb/snapshot.h:262-268 | version and multimap change as the value-level insert says |
| SnapshotMap.SortedMap.HasReadonlySnapshot | memdb/snapshot.h:229-237 | for the writer, true exactly when it is not alone |
| SnapshotMap.SortedMap.Erase | memdb/snapshot.h:302-363 | both forms, both branches and both flags do the value-level erase |
| SnapshotMap.SortedMap.EraseRange | memdb/snapshot.h:365-384 | marks exactly the visible cells between the range's iterators; the direct branch is unreachable |
| SnapshotMap.SortedMap.LeaveRing | memdb/snapshot.h:555-558 | two link writes take the object out of the ring |
| SnapshotMap.SortedMap.DestroyMe | memdb/snapshot.h:541-571 | the value-level leave, with the automatic collection by the right neighbour |
| SnapshotMap.SortedMap.Query | memdb/snapshot.h:407-455 | all ten query forms: a range with its own snapshot that spans, and has still to yield, exactly this map's entries of the interval, forward or in exact reverse |
| SnapshotMap.SortedMap.AnswersTogether | memdb/snapshot.h:407-455 | the answers below a key, at it and above it, one after the other, are the whole map; the answer between two keys is what lies above the one and below the other, ends excluded |
| SnapshotMap.SortedMap.InsertRange | memdb/snapshot.h:290-300 | the loop inserts what the range still yields, under one version, shared or not, and also when the range is over the map's own group |
| SnapshotMap.SortedMap.InsertBeside | memdb/snapshot.h:262-268 | any live range object stays valid and yields what it would have, through an insert |
| SnapshotMap.SortedMap.EraseBeside | memdb/snapshot.h:302-363 | through any keyed erase |
| SnapshotMap.SortedMap.EraseRangeBeside | memdb/snapshot.h:365-384 | through the erase of any range, be it itself |
| SnapshotMap.SortedMap.InsertRangeBeside | memdb/snapshot.h:290-300 | a range object yields what it would have, through a batch read from another range |
| SnapshotMap.SortedMap.GcRunBeside | memdb/snapshot.h:467-495 | a range object survives a collection if and only if none of its iterators stands on garbage, and then yields what it would have |
| SnapshotMap.SortedMap.DestroyMeBeside | memdb/snapshot.h:541-571 | a range object survives the end of another member, unless that is the writer, it collects on leaving, and an iterator stands on garbage |
| SnapshotMap.SortedMap.Snapshot | memdb/snapshot.h:254-260 | a new read-only member that shows what this map shows; the group takes the step of the value-level join |
| SnapshotMap.SortedMap.BecomeCopyOf | memdb/snapshot.h:147-174 | the copy constructor: a snapshot of a read-only source, else an independent writable copy; the source's group takes the step of the value-level copy |
| SnapshotMap.SortedMap.CopyWriter | memdb/snapshot.h:165-172 | a range over the source fills a group of its own; in the source's group only the garbage counters have changed |
| SnapshotMap.SortedMap.Assign | memdb/snapshot.h:200-226 | assignment leaves the old group, whose other members go on as the value-level leave says, then copies; self-assignment does nothing |
| SnapshotMap.SharedGroup.MarkMatches | memdb/snapshot.h:307-318 | the tombstone loop marks the visible matches, or the first |
| SnapshotMap.SharedGroup.DropKey | memdb/snapshot.h:319-326 | the direct branch drops the equal range, or the cell at the lower bound |
| SnapshotMap.SharedGroup.DropRow | memdb/snapshot.h:348-362 | the direct loop drops all matching values of the key, or the first |
| SnapshotMap.SharedGroup.MarkSpan | memdb/snapshot.h:371-379 | the marking loop between two positions |
| SnapshotMap.SharedGroup.SweepCells | memdb/snapshot.h:482-492 | the in-place sweep leaves exactly the cells that are not garbage |
| SnapshotMap.RangeCursor.PrefetchNext | memdb/snapshot.h:39-50 | finds the next visible entry and loses none, and what the range spans stays |
| SnapshotMap.RangeCursor.HasNext | memdb/snapshot.h:66-72 | tells whether anything remains, in any interleaving with `next`, and changes neither what remains nor what is spanned |
| SnapshotMap.RangeCursor.Next | memdb/snapshot.h:74-80 | yields the first remaining entry once; what is spanned stays |
| SnapshotMap.RangeCursor.Count | memdb/snapshot.h:82-93 | the number of entries spanned, which for a query is the number in its interval, whatever was yielded before |
| Ring.LinkedJoin | memdb/snapshot.h:528-532 | inserting left of a member keeps the list circular and doubly linked |
| Ring.LinkedLeave | memdb/snapshot.h:555-558 | unlinking a member keeps the list circular and doubly linked |
| Multimap.InsertEntrySorted | memdb/snapshot.h:262-268 | the reference multimap stays in key order under inserts |
| Multimap.WithoutSorted | memdb/snapshot.h:302-327 | and under erases |
| Multimap.ThreeAnswers | memdb/snapshot.h:407-455 | in any ordered map the three answers at a key join to the whole map, the middle one is exactly the entries of that key, and the outer ones compare smaller and larger by value |
| Multimap.BothEnds | memdb/snapshot.h:443-446 | an answer between two keys is the answer below the one within the answer above the other |
| Keys.CompareStrIsDictionary | memdb/table.cc:54-71 | `memcmp` over the common length and then the lengths is dictionary order |
| Keys.DictionaryExact | memdb/table.cc:54-71 | smaller strings are proper prefixes, or have the smaller byte at the first difference |
| Keys.CompareAntisymmetric | memdb/table.cc:8-77 | swapping the keys flips the sign, and zero means equal keys |
| Keys.CompareTransitive | memdb/table.cc:8-77 | the order is transitive |
| Keys.CompareKeys | memdb/table.cc:8-77 | the column loop answers -1 exactly when the first column that differs is smaller, as a number or as a string of bytes, and 0 exactly when none differs |
| Keys.CompareExact | memdb/table.cc:8-77 | the same of the order that all containers use |
| Keys.PairStrict | memdb/txn.cc:165-185 | `table_row_pair::operator<` is irreflexive and asymmetric, and incomparable means the same table and place |
| Keys.PairLessTransitive | memdb/txn.cc:165-185 | it is transitive, sentinels included |
| Keys.PairNotLessTransitive | memdb/txn.cc:165-185 | so is its negation: a strict weak order |
| Keys.SentinelsBracketTable | memdb/txn.cc:165-185 | a row lies between ROW_MIN and ROW_MAX of a table exactly when it is of that table |
| Bounds.DescentFinds | memdb/txn_2pl.cc:358-360 | in a tree of any shape a descent ends at the one place that divides the order, if there is one |
| Bounds.ThreeWays | memdb/table.h:196-262 | every key is below, at or above a given one, and only one of these; the outer two by the order of the column values |
| TxnRun.ProgramCorrect | memdb/txn_nested.cc:15-137 | any program at any depth answers every read and query, and leaves every open level, as immediate execution does |
| TxnRun.NestedIsDirect | memdb/txn_nested.cc:15-36 | a program in a nested transaction, then commit, is the program run directly; then abort, every level is as before. Over the tables themselves this is `Txn2PL` against `TxnUnsafe` |
| TxnRun.BelowUntouched | memdb/txn_2pl.cc:217-265 | until a transaction commits, no level below it changes what it shows, the tables included |
| TxnRun.StepCorrect | memdb/txn_nested.cc:15-137 | one command: same answer, same levels, invariant kept |
| TxnRun.CommitCorrect | memdb/txn_nested.cc:20-36 | after the three loops, in any order of their elements, the level below shows what the committed one showed and lower levels what they did |
| TxnRun.CommitThenRead | memdb/txn_nested.cc:20-36 | after a commit every row reads below as it read above |
| TxnRun.CommitKeepsKeys | memdb/txn_nested.cc:20-36 | committing never stages an update of a key column |
| TxnRun.LowerLevelsIrrelevant | memdb/txn_nested.cc:15-137 | a program that closes only what it opened does not depend on what lies further down |
| TxnStack.ReadCorrect | memdb/txn_nested.cc:38-61 | the lookup order staged row, pending update, level below gives the shown value at any depth |
| TxnStack.WriteCorrect | memdb/txn_nested.cc:63-88 | a write changes one column of what its level shows and nothing of any level below |
| TxnStack.InsertCorrect | memdb/txn_nested.cc:90-97 | an insert adds one row to its level only |
| TxnStack.RemoveCorrect | memdb/txn_nested.cc:99-123 | a removal takes one row from its level only, with its pending updates |
| TxnStack.WriteThenRead | memdb/txn_2pl.cc:268-315 | a written value is read back, and every other column and row reads as before, at any depth |
| TxnStack.InsertThenRead | memdb/txn_nested.cc:38-97 | an inserted row is shown in its table and reads as its own columns; others read as before |
| TxnStack.RemoveThenRead | memdb/txn_nested.cc:99-123 | a removed row is not shown; others read as before |
| TxnQuery.AnswerCorrect | memdb/txn_nested.cc:126-137 | where shown rows have the keys in their memory and staged rows are in key order, a query at any depth yields exactly the shown rows of the table in the interval, each once |
| TxnQuery.AnswerByMemory | memdb/txn_nested.cc:126-137 | with staged rows in key order, whatever is pending, a query at any depth selects among the shown rows by the keys in their memory |
| TxnQuery.QueriesExact | memdb/txn_nested.cc:126-137 | with staged rows in key order, all queries of a table are right if and only if no shown row of it has a pending key other than the one in its memory |
| TxnQuery.LevelsExact | memdb/txn_nested.cc:126-137 | all queries of a table are right at every level if and only if at every level shown rows have the keys in their memory, and in every buffer the staged rows of the table are still in key order |
| TxnQuery.AnswersAlike | memdb/txn_nested.cc:126-137 | trees of staged rows in key order answer alike, whatever their shape and the order of equal keys |
| TxnQuery.KeptKeysAgree | memdb/txn_2pl.cc:293-315 | pending updates that stay away from key columns leave every shown row with the key it is filed under |
| TxnQuery.WriteKeepsKeys | memdb/txn_2pl.cc:293-315 | writes to non-key columns keep pending updates away from keys at every level |
| TxnDetached.CommitExact | memdb/txn_nested.cc:20-36 | commit shows below what was shown above if and only if no staged row carries a pending update that disagrees with it |
| TxnDetached.DetachedWriteComesBack | memdb/txn_nested.cc:63-97 | in a buffer over a buffer, write, insert, write again: the second value is read inside, the first one after commit |
| TxnDetached.KeyWriteMisleadsQuery | memdb/txn_2pl.cc:293-315 | a pending key write is shown but a query for the new key misses the row |
| TxnDetached.RekeyedRowIsMissed | memdb/txn_2pl.cc:298-302 | insert three rows, write the key of one: it is shown with its new key, no update is pending, and the query for that key yields nothing |
| TxnCursor.MergeIsBoth | memdb/txn.h:413-436 | the merge by address yields both sides completely and once |
| TxnCursor.MergeByAddress | memdb/txn.h:413-436 | two sides in the order of addresses merge into that order |
| TxnCursor.KeptCount | memdb/txn.h:403-411 | filtering drops exactly the rows staged for removal |
| TxnCursor.Cursor.FindCandidate | memdb/txn.h:403-411 | the prefetch loop finds the next kept row from below and loses none |
| TxnCursor.Cursor.Choose | memdb/txn.h:413-436 | the choice between candidate and staged row takes one row and loses none |
| TxnCursor.Cursor.PrefetchNext | memdb/txn.h:400-439 | what remains does not change, and nothing cached means nothing remains |
| TxnCursor.Cursor.HasNext | memdb/txn.h:473-479 | tells whether anything remains, through any depth of nested cursors |
| TxnCursor.Cursor.Next | memdb/txn.h:481-487 | yields the first remaining row once |
| TxnSlots.FileKeeps | memdb/txn_2pl.cc:317-324 | inserting keeps the staged rows in order, each filed once under its key |
| TxnSlots.Sweep | memdb/txn_2pl.cc:331-339 | the sweep of the equal range finds a row by identity if and only if it is there |
| TxnSlots.DropKeeps | memdb/txn_2pl.cc:343-346 | erasing one staged row keeps the rest |
| TxnSlots.RangeExact | memdb/txn_2pl.cc:354-548 | a position lies between the query's bounds exactly when its row is of the table and in the interval, sentinels used for open ends |
| TxnSlots.RangeRows | memdb/txn_2pl.cc:354-548 | the rows between the bounds are the matching rows, each once |
| TxnSlots.FoundExact | memdb/txn_2pl.cc:354-548 | in a tree of staged rows of any shape, all intervals of a table are answered rightly if and only if its rows are in key order |
| TxnStore.Store.InsertRow | memdb/table.h:183-188 | the row enters its table's order and knows its table |
| TxnStore.Store.RemoveRow | memdb/table.cc:101-114 | the row leaves if it is in this table, and nothing happens otherwise |
| TxnStore.Store.WriteColumn | memdb/row.cc:168-194 | one column changes; a row whose key changes is filed anew in its table |
| TxnStore.Store.Query | memdb/table.h:196-262 | every query form yields exactly the table's rows in the interval, each once, keys rising or falling as asked |
| TxnModel.AnswersTogether | memdb/table.h:196-262 | the rows below a key, at it and above it divide a table; between two keys lie the rows above the one and below the other; every row counts by its own table and key columns |
| TxnModel.KeyAt | memdb/row.cc:115-122 | a key lists the values of the key columns, one for one |
| TxnObjects.Txn.Over | memdb/txn_nested.h:16-17 | a new buffer shows what its base shows |
| TxnObjects.Txn.IsStaged | memdb/txn_2pl.cc:273-277 | both tests, no table at the lowest level and `row_inserts_` above it, recognise exactly the staged rows |
| TxnObjects.Txn.ReadColumn | memdb/txn_2pl.cc:268-291 | the shown value, by the recursion through the bases |
| TxnObjects.Txn.WriteColumn | memdb/txn_2pl.cc:293-315 | the value-level write; staged rows are written themselves, others get a pending update |
| TxnObjects.Txn.InsertRow | memdb/txn_nested.cc:90-97 | the value-level insert, with the staged order kept |
| TxnObjects.Txn.RemoveRow | memdb/txn_nested.cc:99-123 | the value-level removal, by the sweep |
| TxnObjects.Txn.Query | memdb/txn_nested.cc:126-137 | a cursor that yields exactly the shown rows of the table in the interval, each once, at any depth; an immediate transaction yields key order, and through buffers the rows of the tables and of each buffer keep it |
| TxnOrder.MergedOrder | memdb/txn.h:413-436 | one buffer more: rows of the tables, rows of every lower buffer and rows staged here each come in the order asked for |
| TxnOrder.OneSource | memdb/txn_unsafe.cc:59-132 | an answer whose rows all come from the tables, or all from one buffer, is in key order |
| TxnObjects.Txn.ApplyInserts | memdb/txn_nested.cc:22-24 | the first commit loop makes the base show the staged rows too |
| TxnObjects.Txn.ApplyUpdates | memdb/txn_nested.cc:25-30 | the second loop patches the shown rows, in any order of the updates |
| TxnObjects.Txn.ApplyRemoves | memdb/txn_nested.cc:31-33 | the third loop hides the removed rows |
| TxnObjects.Txn.Commit | memdb/txn_2pl.cc:217-265 | the base shows what this transaction showed, levels further down are unchanged |
| TxnObjects.Txn.Abort | memdb/txn_nested.cc:15-18 | the base's rows, tables and staged sets are untouched |
| IndexModel.DropRowAgree | memdb/table.cc:343-351 | erasing an index row leaves all other base and index rows linked one to one |
| IndexModel.AddRowAgree | memdb/table.cc:224-245 | creating an index row links it to its base row and disturbs no other link |
| IndexModel.WriteAgree | memdb/row.cc:183-193 | writing a column that no present index picks keeps every projection right |
| IndexModel.DropMasterAgree | memdb/table.cc:309-322 | giving up an emptied master index keeps all other rows linked |
| IndexModel.OwnerExact | memdb/table.h:586-596 | an index row leads through its master index to the one base row whose projection it holds |
| IndexTable.HitIsSelected | memdb/table.h:586-596 | a hit in the index leads to a row that a scan selects, and to a different one per hit |
| IndexTable.OwnersOfHits | memdb/table.h:586-596 | all hits together lead to the rows a scan selects, each once |
| IndexTable.PickColumns | memdb/table.cc:225-231 | the pick loop computes the projection, column for column |
| IndexTable.IndexedTable.MakeIndexRow | memdb/table.cc:224-245 | one missing index row is created, linked and filed |
| IndexTable.IndexedTable.NotifyBeforeUpdate | memdb/table.cc:324-353 | exactly the index rows that show the column are gone |
| IndexTable.IndexedTable.NotifyAfterUpdate | memdb/table.cc:355-383 | they are back with the new projection, and nothing is missing |
| IndexTable.IndexedTable.DestroyIndexRows | memdb/table.cc:209-221 | all index rows of one base row are gone, those of others are not |
| IndexTable.IndexedTable.Insert | memdb/table.cc:278-296 | a new row: one more base row, with one index row per index; a row taken out to be changed: back in the base table, its master index as it was |
| IndexTable.IndexedTable.Remove | memdb/table.cc:309-322 | one base row less, with its index rows and master index |
| IndexTable.IndexedTable.Update | memdb/row.cc:168-240 | one column of one base row changes, and all indices agree again |
| IndexTable.IndexedTable.UpdateIndexed | memdb/row.cc:178-194 | the protocol around the write of an indexed column |
| IndexTable.IndexedTable.Find | memdb/table.cc:189-203 | an index query yields exactly the base rows that a scan of the base table selects by the index columns, each once, in the order of those columns |
| RowLayout.DecodeEncode | memdb/row.cc:88-113 | reading the bytes of a value gives the value |
| RowLayout.EncodeDecode | memdb/row.cc:168-175 | every sized block of bytes is some value's, so equal bytes mean an equal value and a skipped write changes nothing |
| RowLayout.LittleEndian | memdb/row.cc:124-166 | byte i of a number in memory is its weight-256^i digit, negative numbers in two's complement |
| RowLayout.Apart | memdb/schema.cc:26-48 | fixed fields follow each other without overlap, string numbers differ |
| RowLayout.FixedUpdated | memdb/row.cc:168-194 | overwriting a field's bytes changes that column and no other |
| RowLayout.InPlace | memdb/row.cc:228-230 | overwriting a string of equal length in the packed buffer changes that column and no other |
| RowLayout.MadeSparse | memdb/row.cc:58-86 | unpacking all strings changes no column |
| RowLayout.SparseUpdated | memdb/row.cc:231-234 | setting one unpacked string changes that column and no other |
| RowLayout.Unpack | memdb/row.cc:40-49 | cutting a packed buffer at its ends gives back the strings |
| RowLayout.Copied | memdb/row.cc:21-56 | packing the visible strings of any row gives a row of the schema if and only if no hidden column is a string, and then all columns are the same |
| RowLayout.Created | memdb/row.cc:276-356 | a created row holds the values given, and zero or nothing in hidden columns |
| RowLayout.FillExact | memdb/row.cc:345-349 | every hidden string has a string before it, whose end it takes, if and only if the first string column is not hidden |
| RowStore.Schema.AddColumn | memdb/schema.cc:10-53 | refuses a used name, else appends a column whose offset or number continues the layout |
| RowStore.Row.Create | memdb/row.cc:276-356 | both passes: every column holds its value, hidden ones zero or nothing |
| RowStore.FillHidden | memdb/row.cc:345-349 | the ends of hidden strings, each where the string before it ends, describe empty strings |
| RowStore.Row.GetBlob | memdb/row.cc:124-166 | the bytes of a column in either representation; for a fixed-size column, byte i is the number divided by 256^i, modulo 256 |
| RowStore.Row.GetColumn | memdb/row.cc:88-113 | the column's current value |
| RowStore.Row.UpdateFixed | memdb/row.cc:168-194 | a fixed-size column holds the new value, all others what they held |
| RowStore.Row.UpdateString | memdb/row.cc:196-240 | a string column holds the new value, by the in-place or the sparse path |
| RowStore.Row.MakeSparse | memdb/row.cc:58-86 | the loop leaves every column as it was |
| RowStore.Row.Update | memdb/row.cc:242-261 | after any update exactly one column changed, to the value written |
| RowStore.Row.Copy | memdb/row.cc:21-56 | for a schema without hidden strings, a dense writable row of its own, with fresh buffers and the same columns |
| RowStore.Pack | memdb/row.cc:332-352 | the two passes over the strings produce the packed buffer and its ends |
| Chronos.ReadFloor | memdb/row_mv.cc:29-52 | a read returns the value of the greatest recorded version at or below the one asked for |
| Chronos.AnyOrder | memdb/row_mv.h:189-209 | for distinct positive versions in any order of arrival, a read returns the greatest write at or below, or the initial value |
| Chronos.OrderIrrelevant | memdb/row_mv.h:189-209 | two orders of arrival of the same writes cannot be told apart by any read |
| Chronos.UpdateExact | memdb/row_mv.h:189-209 | a write adds itself to the history and changes nothing else if and only if its version was free or had that value, and the version it supersedes was recorded as current |
| Chronos.WriteReadBack | memdb/row_mv.h:189-209 | a version is read back as written if and only if no other value had taken it |
| Chronos.TwiceWritten | memdb/row_mv.h:189-209 | a version written twice reads as the first value now and as the second after the next write |
| Chronos.CopyReads | memdb/row_mv.cc:16-27 | a copy can be read at a version if and only if that is not below the copied column's current one, and then reads as the original |
| Chronos.ChronosRow.UpdateWithVer | memdb/row_mv.h:139-141 | one column takes the step, the others stay |
| Chronos.ChronosRow.GetColumnByVer | memdb/row_mv.cc:29-52 | the reverse search stays inside the old versions and finds the greatest one at or below |
| Chronos.ChronosRow.Copy | memdb/row_mv.cc:16-27 | values and current versions are copied, old values are not |
| XxHash.OneShot | memdb/xxhash.cc:206-263 | the one-shot loops compute the digest of the xxHash specification's XXH32 steps |
| XxHash.ShortAnswers | memdb/xxhash.cc:206-263 | known digests of nothing, of "a" and of "abcd", from two seeds |
| XxHash.LongAnswers | memdb/xxhash.cc:206-263 | known digests of the 26 lower-case letters from two seeds, through every step of the algorithm |
| XxHash.StripesConcat | memdb/xxhash.cc:372-395 | stripes of a concatenation are stripes after stripes |
| XxHash.Completed | memdb/xxhash.cc:358-370 | filling the buffer to 16 bytes continues the stripes of the whole message |
| XxHash.Hasher.Reset | memdb/xxhash.cc:317-328 | the state of the empty message |
| XxHash.Hasher.Complete | memdb/xxhash.cc:358-370 | the straddling stripe: buffer and first input bytes are mixed as one stripe |
| XxHash.Hasher.Update | memdb/xxhash.cc:339-402 | the state after a chunk is the state of the longer message, for chunks of any size |
| XxHash.Hasher.IntermediateDigest | memdb/xxhash.cc:415-455 | the one-shot digest of everything fed so far, without touching the state |
| XxHash.HashChunks | memdb/xxhash.cc:339-475 | for any division into chunks every intermediate digest is the one-shot digest of its prefix |
| IntHash.Fmix32Bijection | memdb/utils.cc:26-33 | the 32-bit mixer has a two-sided inverse |
| IntHash.Fmix64Bijection | memdb/utils.cc:36-43 | the 64-bit mixer has a two-sided inverse |
| IntHash.SeedBijection | memdb/utils.cc:45-64 | for a fixed key, hashing can be undone to the seed |
| IntHash.WordBijection | memdb/utils.cc:45-64 | with all else fixed, exactly one word at any place gives a chosen hash |
| IntHash.NoCollision32 | memdb/utils.cc:45-54 | keys of equal length that differ in exactly one word never collide, whatever the seed |
| IntHash.NoCollision64 | memdb/utils.cc:56-64 | the same for 64 bits |
| IntHash.IntHash32 | memdb/utils.cc:45-54 | the loop folds the words from the first on |
| IntHash.IntHash64 | memdb/utils.cc:56-64 | the loop folds the words from the first on |
| IntHash.Known32 | memdb/utils.cc:26-54 | known values of the mixer and of a two-word key |
| IntHash.Known64 | memdb/utils.cc:36-64 | the same for 64 bits |
| IntHash.PairsOfOneTable | memdb/txn.h:303-309 | two rows of one table, or one row under two tables, never share a hash |
| Odometer.NextCounts | deptran/sharding.cc:525-543 | a step adds one to the number the digits write; when all are full they return to zero |
| Odometer.EveryTupleOnce | deptran/sharding.cc:525-543 | from zero, every tuple of the product is reached at exactly one step |
| Odometer.RoundTrip | deptran/sharding.cc:525-543 | after as many steps as there are tuples the counter is back at its start |
| Odometer.CarryGoesOn | deptran/sharding.cc:531-540 | an overflowing digit returns to exactly zero, so the inner check never fails |
| Odometer.Index.Init | deptran/sharding.cc:455-467 | all digits zero, or -1 for an empty index |
| Odometer.Index.Increase | deptran/sharding.cc:525-543 | the carry loop takes one step and returns -1 exactly when all digits were full |
| Odometer.Index.ReverseIncrease | deptran/sharding.cc:502-523 | the same from the last column on |
| Odometer.Index.IncreaseBound | deptran/sharding.cc:486-500 | the free columns take one step, every tied column repeats digit and radix of the first bound one, and -1 is returned exactly when the free columns were full |
| Odometer.Index.Populate | deptran/sharding.cc:398-433 | the insert loop ends after offering every combination of the free columns exactly once, tied digits equal to the first bound one's in every offer, the counter back at zero |
| Odometer.Index.PopulateCounted | deptran/sharding.cc:398-432 | without a primary key of its own, a table is filled up to the first row that makes the records enough, if and only if some combination does; else the counter overflows |
| Odometer.CountedMeans | deptran/sharding.cc:412-420 | the rows counted reach the number of records with the last combination offered, and with none before it |
| Ids.PackInjective | deptran/client_worker.cc:101-105 | within 32 bits, different client, number or partition means a different coordinator id |
| Ids.PackPartition | deptran/client_worker.cc:101-105 | the coordinator id modulo the number of partitions is its partition |
| Ids.PackExact | deptran/client_worker.cc:101-105 | whatever partitions the clients have, no two coordinators share an id if and only if all clients' numbers, up to the last one handed out, fit 32 bits together; for a single client, if and only if 2^17 does not divide the number of partitions |
| Ids.IdSays | deptran/coordinator.cc:31-35 | in any interleaving the high half of an id is the coordinator, which tells the partition, and the low half counts |
| Ids.AllDistinct | deptran/coordinator.h:126-129 | in any interleaving of any clients and coordinators no transaction id is given twice |
| Ids.Coordinator.NextTxnId | deptran/coordinator.h:126-129 | the next id of this coordinator, once |
| Ids.ClientWorker.FindOrCreate | deptran/client_worker.cc:82-98 | hands out a coordinator that nobody is using, or none exactly when the numbers are used up |

## Left out

- SnapshotMap.SortedMap.Erase: a first-match erase by key alone by a lone writer is required not to find the end of the map, where the code is undefined.
- SnapshotRun.RunRefinesCopies: a first-match erase that `SnapshotGroup.EraseFirstExact` calls wrong ends a legal run, and a range erase is one step in which the range is opened, erased and dropped.
- TxnRun.ProgramCorrect: rows are written only while they are shown, inserted rows are new, and writes leave key columns alone; `TxnDetached` shows what becomes of an early write and of both kinds of key write.
- TxnObjects.Txn.Query: through a buffer, no key order across sources, because the merge compares row addresses; `TxnOrder` says what order there is.
- TxnObjects.Txn.InsertRow: on a buffer, the row is one that no level knows yet, because a row inserted again keeps its old pending updates and removals.
- TxnObjects.Txn.WriteColumn: on a buffer, the column is not a key column, because a pending key write and a re-keyed staged row mislead queries, and the sweep of `remove_row` too.
- IndexTable.IndexedTable.Insert: the pointer column of a new row is set before its index rows are made instead of after.
- IndexTable.IndexedTable.Remove: only the freeing removal; a removal without freeing outside an update leaves index rows behind in the code.
- RowStore.Row.Update: the table that holds the row is not told here; that protocol is in `IndexTable` and `TxnStore`.
- RowStore.Row.UpdateFixed: the notification of the holding table around the write is in `IndexTable`, not here.
- RowStore.Row.UpdateString: the notification of the holding table around the write is in `IndexTable`, not here.
- RowStore.Row.Create: values have the kinds of their columns, which the code does not check, and the first string is not hidden, where the code reads outside its buffer.
- RowStore.Row.Copy: no hidden strings, because `RowLayout.Copied` shows that otherwise the copy is no row of the schema.
- Chronos.ChronosRow.Copy: read versions and prepared versions, which no read of a column depends on.
- Chronos.ChronosRow.UpdateWithVer: versions are not negative; the code compares a negative one as a huge unsigned number.
- XxHash.Hasher.Update: fewer than 2^64 bytes in all.
- Odometer.Index.IncreaseBound: the first bound column is in the index and is not bound twice; the reverse bound form has the same loops around `ReverseIncrease` and would only repeat the proof.
- Odometer.Index.PopulateCounted: which combinations make a row, and how many, is a parameter.
- Wrap-around of snapshot versions after 2^64 writes.
- `erase` of a reverse range: the same marks in the opposite order.
- SnapshotMap.SortedMap.InsertRange: reads from the range given, where the code reads from a copy of it that holds a further snapshot for the time of the call.
- TxnCursor.Cursor.Next: the set of removed rows is the one at the query; the code refers to the live set, so a removal during the iteration also shows.
- `snapshot_sortedmap` built from an iterator pair: the insert loop of `InsertRange`.
- `UnsortedTable` and `SnapshotTable`: the first is an unordered multimap with the same removal sweep, the second forwards to the snapshot map, and its `remove(Row*)` passes the row as a flag.
- `SortedTable::clear` and removals by cursor: they bypass index maintenance, or only repeat the removal of a row.
- `Txn2PL` reader tracking, row locks, `TxnOCC` and the query buffers: bookkeeping for protocols that are not part of this model.
- `MergedCursor::reset`, `Index::all` order and `Row::to_string`: unused or write-only in the code.
- `ChronosRow` prepared-version lists: the code keeps the wrong list sorted, so no order claim holds.
- `next_pie_id`: the same counter as `next_txn_id`.
- Protocol schedulers, RPC services, communicators, configuration loading and scripts: input and output around code that is not part of this model.
