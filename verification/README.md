# HuaDB storage engine: a verified model

This project models the transactional storage engine of HuaDB in Dafny 4.11 and
proves what it guarantees. `dafny verify dfyconfig.toml` checks all of it.

The model has two layers that share one set of specification functions.

**Objects.** What the C++ code updates in place is a class here, with the same
fields and the same loops: the lock manager, the transaction manager, the log
manager over a log file of bytes, the slotted page over its 256 bytes, record,
header and bitmap, the LRU strategy and the buffer pool, table, scan cursor,
executors, restart, and the begin/commit/rollback entry points of the database
engine. Every method is proved against a function of the old state. Table and
statements work on a map of pages; `CachedPages.CachedStore` proves that getting
a page from the pool and editing its bytes is, operation by operation, what they
do to that map, and that list, frames and disk change like a cache of five pages.

**Engine.** Module `Engine` is the same system as one step function over client
and background operations: begin, start a command, lock, insert, delete, update,
commit, rollback, evict a page, flush the log, take a checkpoint. Theorems about
every interleaving are lemmas about its runs; a crash may follow any state, and
`RestartFromDisk.CrashAndRestart` joins the two layers: it takes the files as the
run has them and restarts the objects over them.

| file | contents |
|---|---|
| `Types`, `Bytes`, `Pages` | ids and constants, little-endian integers and buffers, the map of table pages |
| `Locks`, `LockManager`, `LockSafety` | lock modes and recorded lists, the lock manager, safety of granted locks over all request sequences |
| `Visibility`, `TransactionManager` | `CanGet` at three isolation levels and its meaning, ids, command ids, snapshots |
| `Wal`, `Replay`, `LogWalks`, `LogManager` | the log as a value, undo and redo on pages, chain and stream walks, the log manager |
| `NewPageRedo` | redo and undo of the record of a new page, and the chain they leave |
| `HeaderCodec`, `LogCodec`, `LogRecords`, `Bitmaps`, `Records` | byte forms and round trips |
| `PageLayout`, `TablePage`, `ByteReplay` | the slotted page, and a whole log done and redone on its bytes |
| `Lists`, `Lru`, `PageBuffer`, `FramePool`, `BufferPool` | lists without repeats, replacement strategy and page cache |
| `Caches`, `FrameCache`, `CacheMaps`, `CachedPages` | the cache as a value, the pool as one, page operations through it |
| `TableChain`, `Table`, `TableScan`, `Statements`, `StatementLocks`, `Executors` | page chain, table, cursor, statements and their locks |
| `Database` | begin, commit, rollback of a connection |
| `Engine`, `EngineInv`, `EngineRows`, `EngineEnds`, `EngineObjects`, `EngineGrants` | the state machine, its invariant, its tie to the table objects, and when a statement goes through |
| `Isolation` | first writer wins, repeatable read, one version per row, rollback |
| `EngineDisk`, `EngineHistory`, `Recovery`, `CrashRecovery` | disk discipline, log as history, the three recovery passes on a page map |
| `CachedRedo`, `RedoWindow`, `CachedRecovery` | recovery through the cache, when the cache keeps up, the crash theorem |
| `RestartBounds`, `Restart`, `RestartFromDisk` | restart over log file and buffer pool, from the files to the committed rows |
| `PoolTrace`, `PooledRun`, `PooledRestart` | the engine behind five frames, and what such a run leaves for redo |
| `RedoLoss`, `SixTables`, `SixRecovery`, `EngineIds`, `XidReuse` | where recovery falls short, with exact conditions |

## What the proofs found

Where the code does less than its design promises, the model keeps the code and
the lemma named here gives the exact condition.

- Restart raises the next transaction id only over records that follow the last
  checkpoint. After insert, commit, checkpoint and crash the inserter's id is
  handed out again, and the first command of the new transaction does not see
  the committed row (`XidReuse.ReusedIdHidesCommittedRow`; fresh if and only if:
  `XidReuse.NextXidFreshIff`).
- Writing a page back erases its dirty-page entry, also during redo, and later
  records of that page are then skipped. With five frames, redo restores every
  page if and only if, between two records of one page that its disk image lacks,
  it asks for fewer than five other pages (`CachedRecovery.RedoCompleteIff`). The
  five frames in use before the crash see to that, unless the page was read again,
  without a record, between the two (`PooledRestarts.RereadNeeded`). With such a
  read a committed row is lost: six tables of one page, an insert into each of
  five, a read of the first, an insert into the sixth and a second one into the
  first (`SixRecovery.SixTablesLoseRow`). What is read when entries are lost:
  `RedoLoss.RestartSeesSeen`; undo then stays within the rows that are there if
  and only if no loser's row was lost (`RestartBounds.UndoSafeIff`).
- Redo of a new page links it to whatever its predecessor links to. If the
  predecessor was written out with the link already made, the page is linked to
  itself and a scan does not end (`NewPageRedo.RedoOverOwnLink`; the chain ends if
  and only if the link is not there: `NewPageRedo.RedoneChainEndsIff`).
- Until the first flush of a new database the flushed LSN is NULL_LSN, which is
  above every LSN, so Rollback reads the zero-filled log file and does not end
  (`LogManagement.FirstRollbackNeverEnds`); it ends if and only if something has
  been flushed (`LogManagement.LogManager.RollbackEndsIff`), which
  `LogManager.Rollback` therefore requires.
- A row insert or delete of a transaction the log does not know changes the page
  before the log refuses it (`Tables.Table.InsertRecord`, `Tables.Table.DeleteRecord`).
- SERIALIZABLE decides visibility exactly like READ COMMITTED for every real
  transaction id (`Visibility.SerializableIsReadCommitted`).
- `CanGet` returning true means that the version is skipped, against its name.
- `RedoInsertRecord` ignores the page offset it is given; redo equals do because
  slots are refilled in the order they were filled (`PageLayout.RedoIsDo`).

## Model

| member | source | states |
|---|---|---|
| RestartFromDisk.CrashAndRestart | src/log/log_manager.cpp:218-500 | end to end: at any moment of any run without rollback, the log manager and the page files as the run has them, memory gone; restart reads the log file, redoes and undoes through the buffer pool, and leaves pages where a new read-committed transaction sees a row if and only if its insert, and not its delete, has a durable commit, with the bytes inserted, provided the five frames keep up with redo; the next id is beyond every record behind the checkpoint |
| RestartFromDisk.RestartDatabase | src/log/log_manager.cpp:218-500 | from any log file and page files a crash can leave on which redo loses no loser's row: the bytes go in, the pages recovery computes through a cold cache come out; a fresh transaction reads the committed effects of what each page has seen, and of the whole log if the cache keeps up; the next id is the saved one, or 1, or one more than that of a record behind the checkpoint, and beyond all of those |
| RestartFromDisk.CrashIsRestartable | src/log/log_manager.cpp:228-265 | what a running log manager has in its files whenever it stops is what restart asks for: the bytes of every durable record, the stored end, the chain of each transaction, the checkpoint at the master record |
| RestartFromDisk.CrashCanRestart | src/log/log_manager.cpp:218-222 | on the log and pages a crash leaves, analysis and redo never come to a slot that is not there, nor does undo provided that redo lost no loser's row, as it does not while the cache keeps up |
| RestartFromDisk.RestartReads | src/log/log_manager.cpp:218-500 | the pages after restart read as the committed effects of the records each page has seen, and as those of the whole log while the cache keeps up, whatever the order of undo |
| RestartBounds.UndoSafeIff | src/log/log_manager.cpp:492-500 | undo after redo through the cache comes only to slots that are there if and only if, on every page, every row a loser inserted or deleted is among those the page has seen |
| RestartBounds.KeepingUpFinds | src/log/log_manager.cpp:492-500 | while the cache keeps up, no loser's row is lost |
| RestartFromDisk.SmallDatabaseKeepsUp | src/storage/buffer_pool.cpp:61-78 | a database of at most five pages always keeps up with redo |
| CachedRecovery.CrashAndRecover | src/log/log_manager.cpp:218-500 | for every run without rollback from a clean start, a crash at any moment and a restart through the page cache: the losers are exactly the transactions without a durable commit record, and, if the cache keeps up with redo (as it does when redo asks for at most five pages), whatever order they are undone in, a new transaction sees a row if and only if its insert, and not its delete, has a durable commit, with the bytes inserted |
| CachedRecovery.RestartSeesCommitted | src/log/log_manager.cpp:218-222 | the same for every log and disk a crash can leave and every transaction id: fresh ids see exactly the committed effects, any other id misses exactly the rows it inserted under the same command id |
| CachedRecovery.RedoCompleteIff | src/log/log_manager.cpp:357-490 | redo through the cache, whose evictions are those of its own page accesses and erase dirty-page entries, brings every page to the replay of the whole durable log if and only if, between two records of one page that its disk image lacks, redo asks for fewer than five other pages |
| CachedRecovery.RecoveredIsFlat | src/log/log_manager.cpp:218-222 | while the cache keeps up, recovery through it leaves the pages that recovery on a page map without a cache leaves |
| CachedRecovery.UndoAllView | src/log/log_manager.cpp:492-500 | undo may evict what it likes: through the cache it has the effect it has on a page map |
| CachedRedo.PageRecoveredIff | src/log/log_manager.cpp:462-482 | one page, whatever the cache does: it is the replay of the log up to the loss of its entry, and of the whole log if and only if no record its disk image lacks comes after that |
| RedoWindow.KeepsUpIff | src/storage/buffer_pool.cpp:80-84 | no page loses its entry too soon if and only if the condition on the log, the dirty-page table and the page LSNs holds |
| RedoWindow.FewPagesKeepUp | src/storage/buffer_pool.cpp:61-78 | redo that asks for at most as many pages as there are frames meets the condition |
| RedoLoss.RestartSeesSeen | src/log/log_manager.cpp:218-500 | whether the cache keeps up or not, provided that no loser's row was lost on any page: a new transaction reads the committed effects of exactly the records the row's page has seen; that is right if and only if no committed change of the row was lost, or all from insert to delete were |
| PooledRestarts.FiveFrames | src/storage/buffer_pool.cpp:61-78 | for every run without rollback in which pages are written when a page that is asked for needs a frame: memory, page files and dirty pages are at every moment those of a cache of five frames, and the run is one of the engine |
| PooledRestarts.RereadNeeded | src/storage/buffer_pool.cpp:61-90 | for every such run and a crash at any moment: if redo asks for five other pages between two records of one page that its file lacks, that page was read in between without a record |
| PooledRestarts.NeverRereadKeepsUp | src/storage/buffer_pool.cpp:61-90 | if no page was read between two of its records that its file lacks, the cache keeps up with redo, however many pages there are |
| PooledRestarts.WritesKeepUp | src/storage/buffer_pool.cpp:61-90 | so it does after every run that asks for pages only to change rows in them |
| PooledRestarts.CrashAndRestartPooled | src/log/log_manager.cpp:218-500 | from the files to the rows, without a condition on redo: a crash at any moment of such a run in which no page was read between two of its records that its file lacks, then restart, and a new transaction reads exactly what was committed |
| PooledRuns.PoolRunIs | src/storage/buffer_pool.cpp:16-32 | a run behind the pool is a run of the engine, so what holds of every engine run holds of it |
| PooledRuns.PoolStepInv | src/storage/buffer_pool.cpp:61-90 | every operation keeps cache and engine in agreement, and a page whose file lacks a record cached; a page with a later record is ahead of it in the recency list unless it was read since |
| PoolTraces.RowKeeps | src/storage/buffer_pool.cpp:61-78 | asking for a page and logging a record keeps fewer than five other pages between two records of a page that its file lacks, unless it was read in between |
| SixRecovery.SixTablesLoseRow | src/storage/buffer_pool.cpp:80-84 | failing family: from every clean start with six one-page tables with room, one transaction inserts into five of them, reads the first, inserts into the sixth and into the first again, and commits; every insert goes where Table::InsertRecord puts it, the crash state is one that five frames leave, and after recovery no new transaction reads the committed row |
| SixRecovery.SixTablesStartOk | src/storage/buffer_pool.cpp:80-84 | such a start exists: six tables with one row each, linked as Table leaves them |
| SixTables.SevenRun | src/table/table.cpp:76-125 | that run to its end: each insert at the first fit, the whole log in the file, and of the pages only the second table's |
| SixRecovery.SixthEvicts | src/storage/buffer_pool.cpp:80-84 | redo of the sixth table's row takes the frame of the first, whose dirty-page entry goes with it before its second record |
| CrashRecovery.CommitSurvives | src/log/log_manager.cpp:118-134 | once Commit has returned, the transaction counts as committed in the log any later crash leaves, whatever happens in between |
| CrashRecovery.CrashState | src/log/log_manager.cpp:153-177 | every reachable state leaves, at a crash, a durable log that ends in a complete checkpoint, disk pages that are prefixes of history, and tables that cover what the pages lack |
| CrashRecovery.AnalysisAtt | src/log/log_manager.cpp:300-311 | analysis rebuilds the active-transaction table that the whole durable log describes |
| CrashRecovery.AnalysisDpt | src/log/log_manager.cpp:312-344 | analysis rebuilds a dirty-page table with an entry early enough for every durable record a disk page lacks |
| CrashRecovery.RedoStartExists | src/log/log_manager.cpp:368-377 | the least dirty-page entry, or the checkpoint, is always the position of a record |
| Recovery.RedoMayStartLate | src/log/log_manager.cpp:368-377 | starting at the least dirty-page entry skips nothing a disk page lacks |
| Recovery.NextIdRaised | src/log/log_manager.cpp:345-352 | the next id after analysis: not below the saved one, beyond the id of every record behind the checkpoint and no further than it has to be; the saved one when a checkpoint record is among them, because its NULL_XID wraps to 0 |
| Recovery.AnalysisEntries | src/log/log_manager.cpp:312-344 | the dirty-page table after analysis: the checkpoint's entries, and for every other page the first row or new-page record behind the checkpoint that names it |
| Recovery.LoserIffNotCommitted | src/log/log_manager.cpp:305-311 | a logged transaction is in the active-transaction table if and only if its commit record is missing |
| Recovery.ReplayTells | src/log/log_manager.cpp:357-490 | xmin, xmax, command id and payload of a replayed version are those of the log records that made and deleted it |
| Recovery.UndoAllAt | src/log/log_manager.cpp:492-500 | rolling back all losers leaves the same version at every place whatever the order |
| Recovery.UndoneVisible | src/log/log_manager.cpp:492-500 | after undo a version is visible to a new transaction if and only if its insert committed, its delete did not, and it is not that transaction's own running command |
| Replay.UndoTxAt | src/log/log_records/insert_log.cpp:71-81 | undoing a whole transaction marks its inserts deleted by itself, clears its deletes and changes no other version |
| EngineHistory.RunHist | src/log/log_manager.cpp:30-68 | over every run without rollback each cached page is the replay of its log records and each disk page a prefix of that replay |
| XidReuse.NextXidFreshIff | src/log/log_manager.cpp:345-352 | the id handed out first after restart is unused if and only if every id begun before the last checkpoint is reached by the id of a record after it: a condition on the log alone |
| XidReuse.RestartIdFreshIff | src/log/log_manager.cpp:345-352 | the same for the log left by a crash at any moment of any run, rollbacks included |
| XidReuse.RestartAndBegin | src/log/log_manager.cpp:218-352 | restart from the files of any run without rollback, then begin: the id handed out is unused if and only if that condition on the log holds |
| EngineIds.RunIds | src/transaction/transaction_manager.cpp:27-36 | over every run, rollbacks included, ids are logged in the order they are handed out, and nobody logs before its begin record |
| XidReuse.ReusedIdHidesCommittedRow | src/log/log_manager.cpp:345-352 | failing family: from any clean start, insert, commit, checkpoint, crash; the id restart hands out is the inserter's, and its first command does not see the committed row |
| EngineDisk.LogBeforePageAndCoverage | src/log/log_manager.cpp:174-177 | at every state of every run: what a disk page reflects is durable in the log, and what it lacks has a dirty-page entry at or below it |
| EngineDisk.RunDisk | src/storage/buffer_pool.cpp:80-90 | every operation, rollback included, keeps log-before-page, dirty-page coverage and a usable last checkpoint |
| IsolationTheorems.FirstWriterWins | src/executors/delete_executor.cpp:18-27 | in every interleaving of read-committed and serializable writers, a delete or update that reaches DeleteRecord finds xmax NULL and an inserter that is itself or has ended |
| IsolationTheorems.FinishedDeletionStays | src/executors/update_executor.cpp:28-32 | a deletion by a finished transaction is never overwritten or undone by any later run |
| IsolationTheorems.InsertNeverFailsLate | src/executors/insert_executor.cpp:30-38 | once the table lock is granted, the X lock on the row just inserted is always granted |
| IsolationTheorems.UpdateNeverFailsLate | src/executors/update_executor.cpp:28-36 | once the old row is locked, the X lock on the new version is always granted |
| IsolationTheorems.RepeatableReadIsSnapshot | src/table/table_scan.cpp:61-94 | a read-only repeatable-read transaction sees at every later point of every run exactly the versions, with the contents, that a read-committed scan would have returned at its Begin |
| IsolationTheorems.OneVersionPerRow | src/table/table_scan.cpp:19-60 | over every run, rollbacks included, a transaction at the start of a command sees at most one version of each logical row, and one exactly when it sees the row's insert and no delete |
| IsolationTheorems.AtMostOneVersion | src/table/table_scan.cpp:19-60 | no transaction ever sees two versions of one logical row |
| IsolationTheorems.VisibleIffInsertedNotDeleted | src/table/table.cpp:178-182 | at the start of a command a transaction sees a version of a row if and only if it sees the row's insert and no delete of it |
| IsolationTheorems.RollbackAsIfNeverRun | src/log/log_manager.cpp:179-216 | after Rollback every other and every later reader sees the database as if the transaction had made no insert and no delete |
| IsolationTheorems.RollbackUnnoticed | src/database/database_engine.cpp:473-484 | no running transaction notices another one rolling back |
| IsolationTheorems.RolledBackLooksUntouched | src/log/log_records/delete_log.cpp:42-51 | a version after undo looks, to any reader at any level, as it would without the transaction's insert and delete |
| EngineInv.FirstWriter | src/table/table_scan.cpp:19-60 | in a state satisfying the invariant, passing visibility test and row lock implies an undeleted version and the recorded X lock |
| EngineGrants.GoesOnIff | src/executors/delete_executor.cpp:18-27 | a writer goes on to change the row if and only if its scan sees it and no lock of another transaction conflicts with the IS and X it asks for |
| EngineGrants.DeleteGoesIff | src/executors/delete_executor.cpp:18-27 | a DELETE marks and logs its row exactly then, and otherwise changes neither pages nor log |
| EngineGrants.UpdateGoesIff | src/executors/update_executor.cpp:21-36 | an UPDATE whose new version has room logs its two records exactly then |
| EngineGrants.InsertGoesIff | src/executors/insert_executor.cpp:22-38 | an INSERT into a page with room goes through if and only if no table lock of another transaction conflicts |
| EngineGrants.EndForgets | src/database/database_engine.cpp:463-484 | commit and rollback leave the transaction no lock and take none from anybody else |
| EngineEnds.RunInv | src/database/database_engine.cpp:453-484 | every state of every run of read-committed and serializable writers satisfies the engine invariant (tables agree, locks shaped, version headers, log and row chains consistent) |
| EngineObjects.DeleteIsTable | src/table/table.cpp:157-176 | the engine's delete step is a logged Table::DeleteRecord: same pages, same log |
| EngineObjects.SeesIsScan | src/table/table_scan.cpp:103-131 | the engine lets a statement change a row exactly if the visibility test of the scan does not skip it |
| EngineObjects.NextSeen | src/table/table_scan.cpp:103-160 | the cursor goes from row to row of those the engine lets a statement change, and misses none |
| EngineObjects.ScanSeen | src/table/table_scan.cpp:103-160 | a whole scan over the engine's pages returns exactly those rows, each once |
| EngineObjects.InsertIsTable | src/table/table.cpp:76-125 | the engine's insert step is a logged Table::InsertRecord that finds a page with room: same pages, same log, same rid |
| Visibility.ReadCommittedMeaning | src/table/table_scan.cpp:19-60 | the branches of read committed mean: insert seen, delete not seen, not made by the running command |
| Visibility.SerializableIsReadCommitted | src/table/table_scan.cpp:95-99 | serializable decides like read committed for every real id, and differs exactly on undeleted versions for NULL_XID |
| Visibility.RepeatableReadMeaning | src/table/table_scan.cpp:61-94 | the branches of repeatable read mean: inserter in the snapshot, deleter not, not made by the running command |
| Transactions.TmSteps | src/transaction/transaction_manager.cpp:27-60 | begin, next command and end keep ids below the next one and snapshots older than their owner |
| Transactions.TransactionManager.Begin | src/transaction/transaction_manager.cpp:27-36 | hands out the next id, with a snapshot of the transactions active before it |
| Transactions.TransactionManager.Commit | src/transaction/transaction_manager.cpp:38-48 | forgets the transaction, which holds no lock afterwards, takes nothing from the others, or fails and changes nothing when it is unknown |
| Transactions.TransactionManager.Rollback | src/transaction/transaction_manager.cpp:50-60 | forgets the transaction, which holds no lock afterwards, takes nothing from the others, or fails and changes nothing when it is unknown |
| Transactions.TransactionManager.GetCidAndIncrement | src/transaction/transaction_manager.cpp:12-17 | returns and advances the command counter, or fails for an unknown id |
| Transactions.TransactionManager.SetNextXid | src/transaction/transaction_manager.cpp:21-25 | only ever raises the next id |
| Transactions.TransactionManager.GetSnapshot | src/transaction/transaction_manager.cpp:62-67 | the snapshot taken at Begin, or an error |
| Transactions.TransactionManager.GetActiveTransactions | src/transaction/transaction_manager.cpp:69-80 | the loop collects exactly the active ids |
| Database.DatabaseEngine.Begin | src/database/database_engine.cpp:453-461 | a connection gets a new id, known to the transaction manager and the log, also when that id was used before; it fails when the connection has one or the log still has the id |
| Database.DatabaseEngine.Commit | src/database/database_engine.cpp:463-471 | the whole log with the commit record at its end is durable; then the transaction holds no lock on any table or row, the others keep theirs, and the tables forget it |
| Database.DatabaseEngine.Rollback | src/database/database_engine.cpp:473-484 | pages are undone, then the whole log with the rollback record at its end is durable, then the transaction holds no lock, the others keep theirs, and the tables forget it |
| LockSafety.HierarchicalLockSafety | src/transaction/lock_manager.cpp:12-158 | over every sequence of requests and releases, refused ones staying recorded, no two transactions hold conflicting granted access to a row, table locks counted |
| LockSafety.RunInv | src/transaction/lock_manager.cpp:12-158 | every request and release keeps recorded modes above granted ones and all granted modes compatible |
| LockSafety.ReleasedAsIfAbsent | src/transaction/lock_manager.cpp:151-158 | after a release, over every sequence of requests and releases of the others, every answer is what it would be had the transaction never been in the map |
| Locks.UpgradeIsJoin | src/transaction/lock_manager.cpp:195-231 | Upgrade by a requestable mode is the least mode above both |
| Locks.UpgradeJoinExactly | src/transaction/lock_manager.cpp:195-231 | for which pairs Upgrade is a join and for which it is not |
| Locks.CompatibleShrinks | src/transaction/lock_manager.cpp:162-193 | what is compatible with an upgraded mode was compatible with the mode before |
| Locks.CompatibleMeaning | src/transaction/lock_manager.cpp:162-193 | two modes are compatible if and only if neither writes every row, and neither reads every row while the other writes some |
| Locks.LeqMeaning | src/transaction/lock_manager.cpp:195-231 | the order of the modes is that of what they allow |
| Locks.TableRequestMeaning | src/transaction/lock_manager.cpp:12-55 | what a table request records and when it is refused, in terms of what the modes allow |
| Locks.RowRequestMeaning | src/transaction/lock_manager.cpp:57-149 | the same for a row request: S asks for IS on the table, any other mode for IX |
| Locks.NothingInTheWay | src/transaction/lock_manager.cpp:35-55 | a transaction that holds nothing never makes another one's request fail |
| Locks.RecordTableShape | src/transaction/lock_manager.cpp:12-33 | a table request keeps one entry per table and row and every row lock covered by a table lock |
| Locks.RecordRowShape | src/transaction/lock_manager.cpp:57-112 | a row request keeps one entry per table and row and every row lock covered by a table lock |
| Locks.RecordRowAndTableModes | src/transaction/lock_manager.cpp:57-112 | a row request joins its mode to the row and its intention to the table and changes no other mode |
| LockManagers.LockManager.LockTable | src/transaction/lock_manager.cpp:12-55 | records the weakest mode that covers the request, granted or not, then refuses if and only if an entry of another transaction conflicts with that mode: one of the two writes every row, or one reads every row and the other writes some |
| LockManagers.LockManager.LockRow | src/transaction/lock_manager.cpp:57-149 | records row and intention in one pass, each as the weakest mode that covers the request, then refuses if and only if another transaction's entry for the row or the table conflicts |
| LockManagers.LockManager.ReleaseLocks | src/transaction/lock_manager.cpp:151-158 | leaves the transaction no lock on any table or row, and every other transaction all of its own |
| Wal.FlushToFacts | src/log/log_manager.cpp:228-265 | a flush makes exactly the records up to the LSN durable, takes none back and changes no record and no table |
| Wal.AppendEndFacts | src/log/log_manager.cpp:118-151 | when a commit or rollback returns, the whole log including its own record is durable |
| Wal.CheckpointFacts | src/log/log_manager.cpp:153-172 | a checkpoint adds its two records with both tables, makes them durable and points the master record at the first |
| Wal.LsnOrders | src/log/log_manager.cpp:30-68 | LSNs grow with the position and stay below the next LSN |
| LogManagement.LogManager.AppendInsertLog | src/log/log_manager.cpp:30-48 | appends the record with the chain pointer, and the dirty-page entry if there was none; an error for an unknown transaction changes nothing |
| LogManagement.LogManager.AppendDeleteLog | src/log/log_manager.cpp:50-68 | appends the record with the chain pointer, and the dirty-page entry if there was none; an error for an unknown transaction changes nothing |
| LogManagement.LogManager.AppendNewPageLog | src/log/log_manager.cpp:70-99 | the record names table, predecessor and new page and points at the transaction's last one, or at none for DDL; both pages get a dirty-page entry where there is none, no other entry changes |
| LogManagement.AppendNewPageIs | src/log/log_manager.cpp:70-99 | the same of the log as a value |
| LogManagement.LogManager.AppendBeginLog | src/log/log_manager.cpp:101-116 | starts the chain of a transaction, or an error when it exists |
| LogManagement.LogManager.AppendCommitLog | src/log/log_manager.cpp:118-134 | the commit record and all before it are in the file before the transaction leaves the table |
| LogManagement.LogManager.AppendRollbackLog | src/log/log_manager.cpp:136-151 | the rollback record and all before it are in the file before the transaction leaves the table |
| LogManagement.LogManager.SetDirty | src/log/log_manager.cpp:24-28 | adds a dirty-page entry only where there is none |
| LogManagement.LogManager.Checkpoint | src/log/log_manager.cpp:153-172 | both records are in the file before the master record names the first |
| LogManagement.LogManager.FlushPage | src/log/log_manager.cpp:174-177 | the log up to the page LSN goes to the file, then the page leaves the dirty-page table |
| LogManagement.LogManager.FlushUpTo | src/log/log_manager.cpp:228-265 | the buffer stays exactly the records that are not in the file, the stored next LSN the end of those that are |
| LogManagement.LogManager.Rollback | src/log/log_manager.cpp:179-216 | visits exactly the transaction's records since its begin record, newest first, whether buffered or in the file, and undoes each once |
| LogManagement.LogManager.RollbackEndsIff | src/log/log_manager.cpp:189-215 | the loop of Rollback, with both its branches, comes to NULL_LSN if and only if something has been flushed |
| LogManagement.FirstRollbackNeverEnds | src/log/log_manager.cpp:189-215 | failing input: a new log manager, one begin record, a rollback |
| LogManagement.LogManager.Analyze | src/log/log_manager.cpp:267-355 | from the log file alone: the loop rebuilds both tables and raises the next id, beyond every record behind the checkpoint and no further than needed; every page a record names has an entry |
| Restarts.Restart.Redo | src/log/log_manager.cpp:357-490 | walks the file from the least dirty-page entry, asks the buffer pool for the pages, and leaves cache, pages and dirty-page table as redo through a cache does, evictions included |
| Restarts.Restart.Rollback | src/log/log_manager.cpp:179-216 | goes back along one transaction's chain and undoes each record through the pool |
| Restarts.Restart.Undo | src/log/log_manager.cpp:492-500 | rolls back every transaction of the rebuilt table once, in some order |
| Restarts.Restart.Recover | src/log/log_manager.cpp:218-222 | analysis, redo and undo in this order over log file and pool leave what recovery through a cache leaves, and the next id beyond every record behind the checkpoint |
| Restarts.ChainsAreWhole | src/log/log_manager.cpp:492-500 | when no id was used twice the chains undo follows are the whole transactions |
| RestartBounds.CrashRedoSafe | src/log/log_manager.cpp:462-482 | after a crash redo inserts only into the next free slot of a page with room and marks only slots that are there |
| RestartBounds.CrashUndoSafe | src/log/log_manager.cpp:492-500 | while the cache keeps up undo finds every row it goes back to |
| NewPageRedo.RedoneChainEndsIff | src/log/log_records/new_page_log.cpp:52-75 | redo of a new page leaves a chain of pages that ends if and only if the image of its predecessor does not have the link yet; if it has, the page is linked to itself |
| NewPageRedo.RedoneIsInserted | src/log/log_records/new_page_log.cpp:55-80 | redo of the two records that an insert into a new page logged, read from that log, gives the links and rows the insert made |
| NewPageRedo.RedoOverOwnLink | src/log/log_records/new_page_log.cpp:52-75 | failing family: the link the insert itself made, once written out |
| NewPageRedo.UndoneChainEnds | src/log/log_records/new_page_log.cpp:41-50 | undo of the last page's record takes it out of the chain |
| NewPageRedo.UndoAfterRedo | src/log/log_records/new_page_log.cpp:41-75 | redo then undo gives back the predecessor's link |
| LogWalks.ChainStep | src/log/log_manager.cpp:189-215 | the previous-LSN chain leads from each record of a transaction to the one before it |
| LogWalks.ChainIsExact | src/log/log_manager.cpp:189-215 | the chain holds every record of the transaction since its last begin record and no other |
| LogWalks.ChainDescends | src/log/log_manager.cpp:189-215 | the chain is strictly descending |
| LogRecords.StreamRoundTrip | src/log/log_record.cpp:13-47 | walking the file by record sizes decodes exactly the records written, of all eight types, and ends at the next LSN |
| LogCodec.RoundTrip | src/log/log_record.cpp:24-47 | a record of any type decodes from its bytes exactly, whatever follows and in whatever order its maps were walked |
| LogCodec.HeadFormat | src/log/log_record.h:16-25 | every record begins with its type, numbered as the enumeration numbers it, its transaction and its chain pointer |
| LogCodec.InsertReads | src/log/log_records/insert_log.cpp:22-69 | the fields of an insert record stand where decoding reads them |
| LogCodec.DeleteReads | src/log/log_records/delete_log.cpp:10-40 | the fields of a delete record stand where decoding reads them |
| LogCodec.NewPageReads | src/log/log_records/new_page_log.cpp:10-39 | the fields of a new-page record stand where decoding reads them |
| LogCodec.TablesRead | src/log/log_records/end_checkpoint_log.cpp:14-75 | both checkpoint tables are read back as maps, whatever the order they were written in |
| LogCodec.AttFormat | src/log/log_records/end_checkpoint_log.cpp:14-36 | entry by entry: transaction id, then last LSN |
| LogCodec.DptFormat | src/log/log_records/end_checkpoint_log.cpp:14-36 | entry by entry: table, page, then first LSN |
| Bytes.LittleEndian | src/log/log_record.cpp:13-22 | integers are stored with the lowest byte first |
| LogRecords.SerializeTo | src/log/log_record.cpp:13-22 | writes exactly the bytes of the record and returns its size |
| LogRecords.PutEndCheckpoint | src/log/log_records/end_checkpoint_log.cpp:14-36 | the two loops write both maps in some order |
| LogRecords.DeserializeEndCheckpoint | src/log/log_records/end_checkpoint_log.cpp:38-75 | the two loops rebuild both maps |
| LogRecords.WriteKeeps | src/storage/disk.cpp:124-135 | writing a record disturbs none that ends before it |
| HeaderCodec.VersionRoundTrip | src/table/record_header.cpp:9-35 | a record header and the bytes after it decode to themselves |
| HeaderCodec.RecordHeader.SerializeTo | src/table/record_header.cpp:9-21 | writes the 13 header bytes and nothing behind them |
| HeaderCodec.RecordHeader.DeserializeFrom | src/table/record_header.cpp:23-35 | reads the header the 13 bytes encode |
| Records.RecordRoundTrip | src/table/record.cpp:62-99 | for every record of the schema, decoding restores header, nulls and values up to the string tag and the type of nulls, and consumes GetSize() bytes |
| Records.ValueRoundTrip | src/common/value.cpp:66-122 | a value of each type is read back by its column |
| Records.ValueFormat | src/common/value.cpp:66-93 | the bytes of each kind of value, a string behind its two-byte length, a negative integer as its complement |
| Records.RecordFormat | src/table/record.cpp:62-76 | header, null bitmap, then the values |
| Records.ReadFacts | src/table/record.cpp:78-99 | whatever is read, the bytes consumed are the stored sizes and the nulls are the marked ones |
| Records.Record.SerializeTo | src/table/record.cpp:62-76 | writes header, bitmap and non-null values and returns GetSize() |
| Records.Record.DeserializeFrom | src/table/record.cpp:78-99 | fills the record so that bitmap, size and values agree |
| Records.Record.UpdateSize | src/table/record.cpp:125-137 | the loop computes header, bitmap and stored sizes |
| Records.Record.SetValue | src/table/record.cpp:39-47 | keeps bitmap and size in step with the values |
| Bitmaps.PutBitLaw | src/common/bitmap.cpp:16-28 | setting or clearing one bit leaves the others as they were |
| Bitmaps.BitAtMeaning | src/common/bitmap.cpp:30-35 | bit i is the one worth 2 to the power of i mod 8 in byte i / 8 |
| Bitmaps.BytesForLeast | src/common/bitmap.cpp:11-14 | a bitmap has no more bytes than its bits need |
| Bitmaps.Bitmap.Set | src/common/bitmap.cpp:16-21 | sets one bit of the vector, or an error out of range |
| Bitmaps.Bitmap.Clear | src/common/bitmap.cpp:23-28 | clears one bit of the vector, or an error out of range |
| Bitmaps.Bitmap.Test | src/common/bitmap.cpp:30-35 | reads one bit, or an error out of range |
| Bitmaps.Bitmap.Resize | src/common/bitmap.cpp:11-14 | keeps the bits that stay and adds zeros |
| PageLayout.InsertedLayout | src/table/table_page.cpp:32-54 | an insert that fits keeps header, slots, gap and records apart and every other record byte for byte |
| PageLayout.InsertedFormat | src/table/table_page.cpp:32-54 | where an insert writes: the counters at bytes 12 and 14, a slot with offset and size behind the others, the record below the others |
| PageLayout.RecordsDisjoint | src/table/table_page.cpp:32-54 | records lie above the slot array, inside the page and apart from each other |
| PageLayout.PatchedLayout | src/table/table_page.cpp:56-73 | rewriting a record header keeps the layout and every other record |
| PageLayout.RedoIsDo | src/table/table_page.cpp:116-134 | redo of an insert gives the page the insert and its stamp gave, byte for byte, but for the page LSN |
| ByteReplay.RedoneIsDone | src/log/log_manager.cpp:462-482 | over a whole log: redo from any image written in between ends in the bytes the statements wrote, all but the page LSN |
| ByteReplay.DoneIsReplay | src/table/table_page.cpp:32-73 | the bytes the statements of a log leave stand for its replay |
| ByteReplay.CrashedPageBytes | src/log/log_manager.cpp:357-490 | the same at a crash: a page that keeps its entry during redo gets back every byte of the durable log's statements behind the page LSN |
| TablePages.InsertedAbs | src/table/table_page.cpp:32-54 | storing a record's bytes adds its version to the page |
| TablePages.MarkedAbs | src/table/table_page.cpp:100-114 | deleting marks one version, undoing it clears the mark, no other version changes |
| TablePages.SpaceAgrees | src/table/table_page.cpp:146-152 | free space by counters is free space by contents |
| TablePages.TablePage.Init | src/table/table_page.cpp:23-30 | an empty page whatever the memory held: LSN 0, no next page, counters 16 and 256 in their places |
| TablePages.TablePage.InsertRecord | src/table/table_page.cpp:32-54 | the record goes under the next slot with its transaction and command id |
| TablePages.TablePage.DeleteRecord | src/table/table_page.cpp:56-73 | marks the version deleted by the transaction |
| TablePages.TablePage.UndoDeleteRecord | src/table/table_page.cpp:100-114 | clears the mark |
| TablePages.TablePage.RedoInsertRecord | src/table/table_page.cpp:116-134 | stores the logged bytes as the insert did; the logged offset is not used |
| TablePages.TablePage.GetRecord | src/table/table_page.cpp:80-98 | the header is that of the version the page holds in the slot; a version stored as a record of the schema gives its values back |
| TablePages.TablePage.SetPageLSN | src/table/table_page.cpp:159-162 | stamps the page and changes nothing else |
| TablePages.TablePage.GetFreeSpaceSize | src/table/table_page.cpp:146-152 | the room left for one more record |
| BufferPools.BufferPool.GetPage | src/storage/buffer_pool.cpp:16-32 | returns what was last written to the page, cached or not, and changes no page of the store; list, frames, dirty bits, disk and log afterwards are those of one access to a cache of five pages |
| BufferPools.BufferPool.NewPage | src/storage/buffer_pool.cpp:34-38 | adds a page to the store and changes no other |
| BufferPools.BufferPool.AddToBuffer | src/storage/buffer_pool.cpp:61-78 | five frames, a bijection with the map, nothing lost by eviction |
| BufferPools.BufferPool.EvictVictim | src/storage/buffer_pool.cpp:66-69 | the victim is the last of the recency list and is written if dirty |
| BufferPools.BufferPool.FlushPage | src/storage/buffer_pool.cpp:80-90 | the log up to the page LSN is durable before the page is written; the page leaves the map |
| BufferPools.BufferPool.Flush | src/storage/buffer_pool.cpp:40-52 | afterwards the disk alone is the store |
| BufferPools.BufferPool.WriteThrough | src/storage/buffer_pool.cpp:16-32 | writing through a page just obtained changes that page of the store and no other |
| FrameCaches.AddedIsFetched | src/storage/buffer_pool.cpp:61-78 | bringing a page into a free or the oldest frame is one access to the cache, with its write-back |
| FrameCaches.TouchIsFetched | src/storage/buffer_pool.cpp:16-21 | an access to a cached page moves it to the front and nothing else |
| FrameCaches.WriteIsStored | src/storage/buffer_pool.cpp:16-32 | a write through a page object is a store into the cache |
| CachedPages.CachedStore.Fetch | src/storage/buffer_pool.cpp:16-32 | the page object the pool gives stands for the page of the map the layers above work on |
| CachedPages.CachedStore.Insert | src/table/table_page.cpp:32-54 | fetch and InsertRecord through the pool append one version to that page of the map |
| CachedPages.CachedStore.Delete | src/table/table_page.cpp:56-73 | fetch and DeleteRecord through the pool mark one version of the map |
| CachedPages.CachedStore.Undelete | src/table/table_page.cpp:100-114 | fetch and UndoDeleteRecord through the pool clear one mark of the map |
| CachedPages.CachedStore.Stamp | src/table/table_page.cpp:159-162 | fetch and SetPageLSN through the pool set one page LSN of the map |
| CachedPages.CachedStore.Undo | src/log/log_records/insert_log.cpp:71-81 | Undo of a record through the pool is undo on the map |
| CachedPages.CachedStore.Redo | src/log/log_records/insert_log.cpp:83-95 | Redo of a record through the pool is redo on the map |
| FramePools.ReplaceFacts | src/storage/buffer_pool.cpp:65-72 | evicting a page for another loses nothing |
| BufferPools.WriteBackLogFirst | src/storage/buffer_pool.cpp:80-90 | writing a page after its log keeps every disk page behind the durable log |
| Lru.ListIsByRecency | src/storage/lru_buffer_strategy.cpp:19-37 | the list holds each accessed frame once, ordered by its last access |
| Lru.VictimIsLeastRecent | src/storage/lru_buffer_strategy.cpp:39-57 | the victim is the frame whose last access lies furthest back |
| Lru.LRUBufferStrategy.Access | src/storage/lru_buffer_strategy.cpp:19-37 | moves the frame to the front |
| Lru.LRUBufferStrategy.Evict | src/storage/lru_buffer_strategy.cpp:39-57 | removes and returns the last of the list |
| TableChain.InsertedChain | src/table/table.cpp:53-152 | inserting keeps page ids 0 to n - 1 linked in order and the last to none |
| TableChain.InsertedAt | src/table/table.cpp:53-152 | the new record reads back at an unused rid and every other record is as it was |
| TableChain.PlaceIsFirst | src/table/table.cpp:71-117 | first fit: every page ahead of the chosen one has less free space than the record is large; the chosen one has as much, or is new |
| TableChain.FreeSpaceIsRoom | src/table/table_page.cpp:146-152 | a record is at most as large as the free space if and only if the page holds everything with it |
| Tables.Table.InsertRecord | src/table/table.cpp:29-155 | the row goes to the first page with room, or to a new last page when every page is too full, and no other row changes; logged, it appends the new page's record with its predecessor if there is one, then the row's with the offset of its bytes, and stamps the page with that LSN; too large a record is refused before, a transaction unknown to the log after the page has changed |
| Tables.Table.FindPage | src/table/table.cpp:76-125 | the walk finds the first page with room: every page it passes over has less free space than asked for |
| Tables.Table.DeleteRecord | src/table/table.cpp:157-176 | marks the version and changes no other; if logging is on, appends the delete record and stamps the page with its LSN, or fails with the mark left for a transaction unknown to the log |
| Tables.Table.UpdateRecord | src/table/table.cpp:178-182 | one row deleted and one more in the first page with room, both logged, the delete first; a refusal leaves the deletion alone |
| Tables.InsertIsDone | src/table/table.cpp:29-155 | what the insert's specification comes to: the place, the one new row, the records with their fields, the stamp |
| Tables.DeleteIsDone | src/table/table.cpp:157-176 | the same for the delete |
| Tables.UpdateIsDone | src/table/table.cpp:178-182 | the same for the update |
| TableScans.SuccFacts | src/table/table_scan.cpp:133-160 | stepping the cursor passes exactly one record |
| TableScans.TableScan.GetNextRecord | src/table/table_scan.cpp:103-160 | returns the next record the reader sees and passes over only records it does not see |
| StatementLocks.GrantedAlone | src/transaction/lock_manager.cpp:57-149 | a granted exclusive row lock gives the row to the requester alone |
| StatementLocks.RowRequestKeeps | src/transaction/lock_manager.cpp:57-149 | further requests of a transaction never weaken the exclusive locks it has |
| StatementLocks.TableRefused | src/transaction/lock_manager.cpp:35-55 | a refused table request conflicts with a lock of another transaction |
| StatementLocks.RowRefused | src/transaction/lock_manager.cpp:114-149 | a refused row request conflicts with a lock of another transaction, on the row or its table |
| Statements.EachRowOnce | src/executors/update_executor.cpp:14-41 | an UPDATE changes exactly the rows that matched when it started, each once: marked by the writer, with one new version under its id and command that holds the new bytes; nothing else changes |
| Statements.FoundIsOld | src/table/table_scan.cpp:19-23 | a row the running UPDATE finds was there at its start and is unchanged |
| Statements.OwnVersionsSkipped | src/table/table_scan.cpp:19-23 | no isolation level shows a statement the versions it writes itself |
| Statements.UpdateReplaces | src/table/table.cpp:178-182 | UpdateRecord deletes one version and adds one, and changes no other row |
| Executors.UpdateExecutor.Next | src/executors/update_executor.cpp:14-41 | terminates although new versions appear ahead of the cursor, replaces each matching row once and reports how many, old and new rows locked by the transaction alone; it is refused only when another transaction's lock really conflicts or a new version fits no page, and then leaves some matching rows replaced and of at most one more the deletion or both versions |
| Executors.DeleteExecutor.Next | src/executors/delete_executor.cpp:13-31 | deletes exactly the rows that matched, each once and each locked by the transaction alone, or stops where another transaction's lock really conflicts |
| Executors.InsertExecutor.Next | src/executors/insert_executor.cpp:15-45 | adds one version per row in order, each locked by the transaction alone, and changes no other row; it is refused only when another transaction's lock really conflicts or a row fits no page |
| Executors.SeqScanExecutor.Next | src/executors/seqscan_executor.cpp:13-39 | takes the IS lock, refused only when another transaction's lock really conflicts, and reads with the active set of the isolation level |
| Executors.SeqScanExecutor.NextMatch | src/executors/filter_executor.cpp:11-19 | the next row that is seen and accepted |
| Executors.SeqScanExecutor.Collect | src/table/table_scan.cpp:103-160 | a full scan of an unchanging table returns each matching row once, in rid order |

## Left out

- NEW_PAGE records in the engine runs and in recovery: tables keep the pages they start with there. `Tables.Table.InsertRecord` models creating, linking and logging a page, `NewPageRedo` what redo and undo of that record do to the chain of pages.
- EngineObjects.InsertIsTable: does not model inserts that create a page, because the engine's tables keep the pages they start with.
- Repeated crashes, and a crash after a rollback: undo is not logged, so the crash theorem covers runs without rollback and one crash.
- A crash between the flush of a checkpoint and the writing of the master record: the two are one atomic step here. Such a crash leaves checkpoint records behind the old checkpoint, whose NULL_XID analysis takes for a transaction (log_manager.cpp:310); what that makes of the next id is in `Recovery.NextIdRaised`.
- RedoLoss.RestartSeesSeen: does not model what undo does to a row that redo lost, which in the original writes through a slot that is not there, wherever its bytes point; the hypothesis `UndoFinds` excludes exactly those cases (`RestartBounds.UndoSafeIff`).
- RestartFromDisk.RestartDatabase: does not model restart after redo lost a loser's row, for the same reason.
- RestartFromDisk.CrashCanRestart: does not model restart after redo lost a loser's row, for the same reason.
- Runs behind five frames (`PooledRuns`): pages are written by eviction alone; BufferPool::Flush and rollback are not among their operations, and statements ask for the page of the row, any other page they pass being a `ReadPage`.
- Writers at REPEATABLE READ: they may overwrite a committed xmax, so writers in the run theorems are at READ COMMITTED or SERIALIZABLE; readers may use any level.
- LogManagement.LogManager.Rollback: does not model records of new pages, and requires that something has been flushed, because otherwise it does not end.
- Database.DatabaseEngine.Rollback: does not model a transaction that created a page, and requires that something has been flushed.
- LogManagement.LogManager.Analyze: does not model a log file without a checkpoint where the master record points, at LSN 0 when there is none; the original reads whatever bytes are there as one.
- Restarts.Restart.Redo: does not model the branch for buffered records, because recovery starts with an empty buffer, nor records of new pages, nor the test for dropped tables.
- Restarts.Restart.Recover: does not model records of new pages.
- LogRecords.DeserializeEndCheckpoint: does not model the fixed read window of the log file; a read returns everything from its offset on.
- Records.RecordRoundTrip: does not model 16-bit overflow of record sizes, because records above MAX_RECORD_SIZE bytes are refused; a double is its eight bytes.
- Executors.UpdateExecutor.Next: does not model expression evaluation; the filter and the new bytes are functions of the old version, and other connections act between statements, not within one.
- Executors.InsertExecutor.Next: does not model the mapping from insert columns to table columns; rows come as encoded bytes.
- Tables.Table.InsertRecord: does not model a logged insert by DDL_XID, which the original never makes: its DDL inserts are not logged.
- Tables.Table.UpdateRecord: does not model a logged update by DDL_XID, for the same reason.
- Page bytes under running statements: tables and executors work on the map of pages that `CachedPages` is proved to implement; bytes, frames and update in place are modelled in `TablePage`, `BufferPool`, `CachedPages` and `Restart`.
- Wrap-around of 32- and 64-bit ids: runs are bounded by NULL_XID and NULL_LSN.
- Threads and mutexes: a row operation (visibility test, lock, change, log append) is one atomic step.
- Rows that exist when an engine run starts: each stored version counts as a logical row of its own.
- BufferPools.BufferPool.GetPage: does not model the second pool for system tables; a page that does not exist gives no page instead of an exception.
- Files, segments, page files of dropped tables: the log is a byte string, page files a map from keys to 256 bytes.
- System tables, catalogs, DDL, the system-table buffer, control and init files: only the saved next transaction id and LSN are parameters.
- SQL parsing, binding, planning, optimizing, joins, sorting, aggregation, result output, client and server.
- Record::Append, UpdateRecordInPlace, value comparison and arithmetic: used by other executors or by system tables only.
