/** From the files a crash leaves to the rows a new transaction reads: the log
    file and the page files are bytes, restart reads and changes them through the
    log manager and the buffer pool. */
module RestartFromDisk {
  import opened Types
  import opened Lists
  import opened Visibility
  import opened Bytes
  import opened PageLayout
  import opened Pages
  import opened Wal
  import opened Replay
  import opened Transactions
  import opened LogWalks
  import LogManagement
  import LockManagers
  import opened Engine
  import opened EngineInv
  import opened EngineEnds
  import opened EngineDisk
  import opened Recovery
  import opened EngineHistory
  import opened CrashRecovery
  import opened Caches
  import opened CacheMaps
  import opened FramePools
  import opened FrameCaches
  import opened BufferPools
  import opened CachedRedo
  import opened RedoWindow
  import opened CachedRecovery
  import opened RedoLoss
  import opened RestartBounds
  import opened CachedPages
  import opened Restarts

  // ---- the log file -------------------------------------------------------

  lemma PrefixPrevOk(log: seq<LogRec>, d: nat)
    requires d <= |log| && forall i :: 0 <= i < |log| ==> PrevOk(log, i)
    ensures forall i :: 0 <= i < d ==> PrevOk(log[..d], i)
  {
    forall i | 0 <= i < d ensures PrevOk(log[..d], i) {
      assert PrevOk(log, i) && log[..d][..i] == log[..i];
      PrefixSame(log, log[..d], i, log[i].xid);
    }
  }

  lemma PrefixContiguous(log: seq<LogRec>, nextLsn: Lsn, d: nat)
    requires 0 < d <= |log| && Contiguous(log, nextLsn)
    ensures Contiguous(log[..d], EndOf(log[d - 1])) && EndOf(log[d - 1]) <= nextLsn
  {
    LsnBelowEnd(log, nextLsn, d - 1);
  }

  lemma PrefixFits(log: seq<LogRec>, d: nat)
    requires d <= |log| && LogManagement.AllFit(log)
    ensures LogManagement.AllFit(log[..d])
  {
    forall i {:trigger LogCodec.RecFits(log[..d][i])} | 0 <= i < d ensures LogCodec.RecFits(log[..d][i]) {
      assert log[..d][i] == log[i] && LogCodec.RecFits(log[i]);
    }
  }

  // The master record names a checkpoint of which both records are in the file.
  ghost predicate MasterAt(lm: LogManagement.LogManager, c: nat)
    reads lm, lm.disk
  {
    && c + 2 <= lm.w.durable <= |lm.w.log|
    && lm.w.log[c].BeginCheckpointLog? && lm.w.log[c + 1].EndCheckpointLog? && lm.w.log[c].lsn == lm.w.master
  }

  /** Whatever a running log manager has in its file when it stops, restart finds
      there: the bytes of the durable records, the cell for their end, the chain
      of each transaction, and the checkpoint. */
  lemma CrashIsRestartable(lm: LogManagement.LogManager, c: nat)
    requires lm.Valid() && MasterAt(lm, c)
    ensures LogManagement.Restartable(lm.w.log[..lm.w.durable], c, lm.disk)
  {
    var d := lm.w.durable;
    var log := lm.w.log[..d];
    PrefixPrevOk(lm.w.log, d);
    PrefixContiguous(lm.w.log, lm.w.nextLsn, d);
    PrefixFits(lm.w.log, d);
    forall i | 0 <= i < |log| ensures LogRecords.Holds(lm.disk.logFile, log[i]) {
      assert LogRecords.Holds(lm.disk.logFile, lm.w.log[i]);
    }
  }

  // ---- what recovery asks for ---------------------------------------------

  /** The pages and the log a crash left allow analysis and redo to run, and undo
      if no loser's row was lost. */
  lemma CrashCanRestart(base: PageMap, first: Xid, log: seq<LogRec>, c: nat, disk: PageMap, m: map<PageKey, nat>)
    requires Crashed(base, first, log, c, disk, m) && LogManagement.AllFit(log)
    requires RowsFound(base, log, c, disk, m)
    ensures LogManagement.AnalysisOf(log, c).att == AttOf(log, |log|)
    ensures CanRestart(log, c, Cold(disk))
  {
    var a := Analyze(log, c);
    AnalysisAtt(log, c, |log|, Analysis(log[c + 1].att, log[c + 1].dpt, 0));
    AnalysisDpt(log, c, |log|, Analysis(log[c + 1].att, log[c + 1].dpt, 0), disk);
    forall k | k in a.dpt ensures exists i :: 0 <= i < |log| && log[i].lsn == a.dpt[k] {
      assert PointsInto(a.dpt, log, |log|, k);
    }
    forall i | RedoStart(log, a.dpt, c, i)
      ensures RedoSafe(log, i, Redoing(Cold(disk), a.dpt))
      ensures forall x :: x in a.att ==> UndoSafe(log, x, View(RedoTo(log, i, |log|, Redoing(Cold(disk), a.dpt)).cache))
    {
      CrashRedoSafe(base, first, log, c, i, disk, m);
      UndoSafeIff(base, first, log, c, i, disk, m);
    }
  }

  // Wherever redo starts, undo then finds the losers' rows.
  ghost predicate RowsFound(base: PageMap, log: seq<LogRec>, c: nat, disk: PageMap, m: map<PageKey, nat>)
    requires c + 2 <= |log| && log[c + 1].EndCheckpointLog?
  {
    forall i :: RedoStart(log, Analyze(log, c).dpt, c, i) ==> UndoFinds(base, log, c, i, disk, m)
  }

  lemma KeepingUpIsEnough(base: PageMap, first: Xid, log: seq<LogRec>, c: nat, disk: PageMap, m: map<PageKey, nat>)
    requires Crashed(base, first, log, c, disk, m) && LogManagement.AllFit(log)
    requires KeepsUp(log, Analyze(log, c).dpt, disk)
    ensures RowsFound(base, log, c, disk, m)
  {
    forall i | RedoStart(log, Analyze(log, c).dpt, c, i) ensures UndoFinds(base, log, c, i, disk, m) {
      KeepingUpFinds(base, first, log, c, i, disk, m);
    }
  }

  // The pages recovery leaves, when it undoes chains.
  lemma RecoveredView(base: PageMap, first: Xid, log: seq<LogRec>, c: nat, start: nat, order: seq<Xid>, disk: PageMap, m: map<PageKey, nat>)
    requires Crashed(base, first, log, c, disk, m) && start <= |log|
    ensures View(UndoChainsOver(log, order, Redone(log, c, start, disk).cache)) == PagesAfter(log, c, start, order, disk)
  {
    forall x | x in order ensures BeganOnce(log, x) {
      forall i, j | 0 <= i < j < |log| && log[j].BeginLog? && log[j].xid == x ensures !OfXid(log[i], x) {
        assert Disciplined(base, first, log, j);
      }
    }
    ChainsAreWhole(log, order, Redone(log, c, start, disk).cache);
  }

  // ---- the theorem --------------------------------------------------------

  /** A new transaction reads exactly the rows whose insert, and not whose
      delete, has a durable commit record, and reads the bytes inserted. */
  ghost predicate OnlyCommitted(base: PageMap, log: seq<LogRec>, ps: PageMap) {
    forall l: Loc, x: Xid, cid: Cid :: x < NULL_XID ==>
      && (Reads(ps, l, x, cid) <==>
            InsertCommitted(base, log, l) && !DeleteCommitted(base, log, l) && HasLoc(ps, l) && !OwnCommand(At(ps, l), x, cid))
      && (Fresh(base, log, x) ==> (Reads(ps, l, x, cid) <==> InsertCommitted(base, log, l) && !DeleteCommitted(base, log, l)))
      && (HasLoc(ps, l) && InBase(base, l) ==> At(ps, l).payload == At(base, l).payload)
      && (HasLoc(ps, l) ==> forall i :: 0 <= i < |log| && Inserts(log[i], l) ==> At(ps, l).payload == log[i].rec.payload)
  }

  lemma RestartOnlyCommitted(base: PageMap, first: Xid, log: seq<LogRec>, c: nat, start: nat, order: seq<Xid>, disk: PageMap, m: map<PageKey, nat>)
    requires Crashed(base, first, log, c, disk, m)
    requires RedoStart(log, Analyze(log, c).dpt, c, start) && KeepsUp(log, Analyze(log, c).dpt, disk)
    requires Enumerates(order, Analyze(log, c).att)
    ensures OnlyCommitted(base, log, PagesAfter(log, c, start, order, disk))
  {
    var ps := PagesAfter(log, c, start, order, disk);
    forall l: Loc, x: Xid, cid: Cid | x < NULL_XID
      ensures Reads(ps, l, x, cid) <==>
            InsertCommitted(base, log, l) && !DeleteCommitted(base, log, l) && HasLoc(ps, l) && !OwnCommand(At(ps, l), x, cid)
      ensures Fresh(base, log, x) ==> (Reads(ps, l, x, cid) <==> InsertCommitted(base, log, l) && !DeleteCommitted(base, log, l))
      ensures HasLoc(ps, l) && InBase(base, l) ==> At(ps, l).payload == At(base, l).payload
      ensures HasLoc(ps, l) ==> forall i :: 0 <= i < |log| && Inserts(log[i], l) ==> At(ps, l).payload == log[i].rec.payload
    {
      RestartSeesCommitted(base, first, log, c, start, order, disk, m, x, cid, l);
    }
  }

  /** A new transaction reads exactly the committed effects of the records
      that the row's page has seen. */
  ghost predicate OnlySeen(base: PageMap, log: seq<LogRec>, c: nat, start: nat, disk: PageMap, m: map<PageKey, nat>, ps: PageMap)
    requires c + 2 <= |log| && log[c + 1].EndCheckpointLog? && start <= |log|
  {
    forall l: Loc, x: Xid, cid: Cid :: KeyOf(l) in disk && KeyOf(l) in m && m[KeyOf(l)] <= |log| && Fresh(base, log, x) ==>
      (Reads(ps, l, x, cid) <==>
         InsertCommittedBy(base, log, SeenBy(log, c, start, disk, m, KeyOf(l)), l)
         && !DeleteCommittedBy(base, log, SeenBy(log, c, start, disk, m, KeyOf(l)), l))
  }

  lemma RestartOnlySeen(base: PageMap, first: Xid, log: seq<LogRec>, c: nat, start: nat, order: seq<Xid>, disk: PageMap, m: map<PageKey, nat>)
    requires Crashed(base, first, log, c, disk, m) && RedoStart(log, Analyze(log, c).dpt, c, start)
    requires Enumerates(order, Analyze(log, c).att) && UndoFinds(base, log, c, start, disk, m)
    ensures OnlySeen(base, log, c, start, disk, m, PagesAfter(log, c, start, order, disk))
  {
    var ps := PagesAfter(log, c, start, order, disk);
    forall l: Loc, x: Xid, cid: Cid | KeyOf(l) in disk && KeyOf(l) in m && m[KeyOf(l)] <= |log| && Fresh(base, log, x)
      ensures Reads(ps, l, x, cid) <==>
         InsertCommittedBy(base, log, SeenBy(log, c, start, disk, m, KeyOf(l)), l)
         && !DeleteCommittedBy(base, log, SeenBy(log, c, start, disk, m, KeyOf(l)), l)
    {
      RestartSeesSeen(base, first, log, c, start, order, disk, m, x, cid, l);
    }
  }

  // What is read after restart, whether the cache kept up or not.
  lemma RestartReads(base: PageMap, first: Xid, log: seq<LogRec>, c: nat, start: nat, order: seq<Xid>, disk: PageMap, m: map<PageKey, nat>)
    requires Crashed(base, first, log, c, disk, m) && RedoStart(log, Analyze(log, c).dpt, c, start)
    requires Enumerates(order, Analyze(log, c).att) && RowsFound(base, log, c, disk, m)
    ensures OnlySeen(base, log, c, start, disk, m, PagesAfter(log, c, start, order, disk))
    ensures KeepsUp(log, Analyze(log, c).dpt, disk) ==> OnlyCommitted(base, log, PagesAfter(log, c, start, order, disk))
  {
    RestartOnlySeen(base, first, log, c, start, order, disk, m);
    if KeepsUp(log, Analyze(log, c).dpt, disk) { RestartOnlyCommitted(base, first, log, c, start, order, disk, m); }
  }

  // The pages on disk, as versions.
  ghost function PagesOf(m: map<PageKey, bytes>): PageMap { MapPages(AbsOf, m) }

  lemma ColdPool(p: Pool, vec: seq<nat>)
    requires p.frames == [] && p.hashmap == map[]
    ensures MapCache(AbsOf, AsCache(p, vec)) == Cold(PagesOf(p.disk)) && Contents(p) == p.disk && Synced(p)
  {
    if KeysOf(vec, p.frames) != [] { KeysIn(vec, p.frames, KeysOf(vec, p.frames)[0]); }
    var c := MapCache(AbsOf, AsCache(p, vec));
    assert c.mem == map[];
    assert c.dirty == {};
  }

  /** Restart over the files a crash left: the log file, the master record and
      the next-LSN cell on one disk, the page files on another. */
  method RestartDatabase(logDisk: LogManagement.Disk, pageDisk: PageDisk, transactionManager: TransactionManager, controlLsn: Lsn,
                         ghost base: PageMap, ghost first: Xid, ghost log: seq<LogRec>, ghost c: nat, ghost m: map<PageKey, nat>)
    returns (restart: Restart, ghost start: nat, ghost order: seq<Xid>)
    requires LogManagement.Restartable(log, c, logDisk)
    requires WholePages(pageDisk.pages) && AllLaidOut(pageDisk.pages)
    requires Crashed(base, first, log, c, PagesOf(pageDisk.pages), m)
    requires RowsFound(base, log, c, PagesOf(pageDisk.pages), m)
    modifies logDisk, pageDisk, transactionManager
    ensures fresh(restart) && restart.Valid()
    ensures RedoStart(log, Analyze(log, c).dpt, c, start) && Enumerates(order, Analyze(log, c).att)
    ensures restart.store.Pages() == PagesAfter(log, c, start, order, old(PagesOf(pageDisk.pages)))
    ensures OnlySeen(base, log, c, start, old(PagesOf(pageDisk.pages)), m, restart.store.Pages())
    ensures KeepsUp(log, Analyze(log, c).dpt, old(PagesOf(pageDisk.pages))) ==> OnlyCommitted(base, log, restart.store.Pages())
    ensures transactionManager.nextXid == NextXidAfter(Analyze(log, c), old(transactionManager.nextXid))
    ensures NextIdOk(log, c, old(transactionManager.nextXid), transactionManager.nextXid)
  {
    ghost var disk := PagesOf(pageDisk.pages);
    CrashCanRestart(base, first, log, c, disk, m);
    forall i | 0 <= i < |log| ensures !log[i].NewPageLog? { assert Disciplined(base, first, log, i); }
    restart := Open(logDisk, pageDisk, controlLsn);
    ghost var known;
    start, order, known := restart.Recover(transactionManager, log, c, Cold(disk), {});
    RestartReads(base, first, log, c, start, order, disk, m);
    RecoveredView(base, first, log, c, start, order, disk, m);
    restart.store.ValueView();
  }

  // The objects of a database that starts: an empty buffer, an empty pool.
  method Open(logDisk: LogManagement.Disk, pageDisk: PageDisk, controlLsn: Lsn) returns (restart: Restart)
    requires WholePages(pageDisk.pages) && AllLaidOut(pageDisk.pages)
    ensures fresh(restart) && fresh(restart.logManager) && fresh(restart.store) && fresh(restart.store.pool) && fresh(restart.store.pool.bufferStrategy)
    ensures restart.logManager.disk == logDisk && restart.logManager.logBuffer == [] && restart.store.pool.disk == pageDisk
    ensures restart.PoolReady({}) && restart.store.Value() == Cold(PagesOf(pageDisk.pages))
  {
    var logManager := new LogManagement.LogManager.Reopened(logDisk, controlLsn);
    var pool := new BufferPool(pageDisk, logManager);
    ColdPool(pool.State(), pool.bufferStrategy.bufferVec);
    assert |pool.State().frames| == |pool.buffers|;
    var store := new CachedStore(pool);
    restart := new Restart(logManager, store);
  }

  // The cache keeps up with redo when the engine crashes here.
  ghost predicate RedoKeepsUp(s: Engine) {
    s.wal.durable <= |s.wal.log| ==>
      var log, c := DurableLog(s), CheckpointAt(s.wal.log, |s.wal.log|);
      c + 2 <= |log| && log[c + 1].EndCheckpointLog? ==> KeepsUp(log, Analyze(log, c).dpt, s.disk)
  }

  /** With no more pages than the cache has frames it always does. */
  lemma SmallDatabaseKeepsUp(s0: Engine, ops: seq<Op>)
    requires Init(s0) && WritersOk(ops) && Bounded(Run(s0, ops)) && forall i :: 0 <= i < |ops| ==> NoRollback(ops[i])
    requires |s0.cur.Keys| <= BUFFER_SIZE
    ensures RedoKeepsUp(Run(s0, ops))
  {
    RunFacts(s0, ops);
    var c, m := CrashState(Run(s0, ops), s0.cur, s0.tm.nextXid);
    SmallCrashKeepsUp(s0.cur, s0.tm.nextXid, DurableLog(Run(s0, ops)), c, Run(s0, ops).disk, m);
  }

  lemma SmallCrashKeepsUp(base: PageMap, first: Xid, log: seq<LogRec>, c: nat, disk: PageMap, m: map<PageKey, nat>)
    requires Crashed(base, first, log, c, disk, m) && |base.Keys| <= BUFFER_SIZE
    ensures KeepsUp(log, Analyze(log, c).dpt, disk)
  {
    var dpt := Analyze(log, c).dpt;
    AnalysisDpt(log, c, |log|, Analysis(log[c + 1].att, log[c + 1].dpt, 0), disk);
    var start := RedoStartExists(log, dpt, c, disk);
    CrashReady(base, first, log, c, start, disk, m);
    assert Asked(log, dpt) <= base.Keys;
    SubsetCard(Asked(log, dpt), base.Keys);
    FewPagesKeepUp(log, start, dpt, disk);
  }

  lemma RunRestartable(lm: LogManagement.LogManager, s0: Engine, ops: seq<Op>) returns (c: nat, m: map<PageKey, nat>)
    requires Init(s0) && WritersOk(ops) && Bounded(Run(s0, ops)) && forall i :: 0 <= i < |ops| ==> NoRollback(ops[i])
    requires lm.Valid() && lm.w == Run(s0, ops).wal && RedoKeepsUp(Run(s0, ops))
    ensures var s := Run(s0, ops);
      && s.wal.durable <= |s.wal.log| && Crashed(s0.cur, s0.tm.nextXid, DurableLog(s), c, s.disk, m)
      && LogManagement.Restartable(DurableLog(s), c, lm.disk)
      && KeepsUp(DurableLog(s), Analyze(DurableLog(s), c).dpt, s.disk) && RowsFound(s0.cur, DurableLog(s), c, s.disk, m)
      && c == CheckpointAt(s.wal.log, |s.wal.log|)
  {
    var s := Run(s0, ops);
    RunFacts(s0, ops);
    c, m := CrashState(s, s0.cur, s0.tm.nextXid);
    var log := DurableLog(s);
    assert log[c] == s.wal.log[c] && log[c + 1] == s.wal.log[c + 1];
    CrashIsRestartable(lm, c);
    KeepingUpIsEnough(s0.cur, s0.tm.nextXid, log, c, s.disk, m);
  }

  /** Take any run of inserts, deletes, updates, commits, evictions, log flushes
      and checkpoints; at any moment of it, let the log manager and the page
      files be as the run has them, throw away all memory, and restart from the
      files: what a new transaction reads is what was committed. */
  method CrashAndRestart(lm: LogManagement.LogManager, pageDisk: PageDisk, transactionManager: TransactionManager, controlLsn: Lsn,
                         ghost s0: Engine, ghost ops: seq<Op>)
    returns (restart: Restart, ghost c: nat)
    requires Init(s0) && WritersOk(ops) && Bounded(Run(s0, ops)) && forall i :: 0 <= i < |ops| ==> NoRollback(ops[i])
    requires lm.Valid() && lm.w == Run(s0, ops).wal
    requires WholePages(pageDisk.pages) && AllLaidOut(pageDisk.pages) && PagesOf(pageDisk.pages) == Run(s0, ops).disk
    requires RedoKeepsUp(Run(s0, ops))
    modifies lm.disk, pageDisk, transactionManager
    ensures fresh(restart) && restart.Valid()
    ensures Run(s0, ops).wal.durable <= |Run(s0, ops).wal.log| && OnlyCommitted(s0.cur, DurableLog(Run(s0, ops)), restart.store.Pages())
    ensures c == CheckpointAt(Run(s0, ops).wal.log, |Run(s0, ops).wal.log|)
    ensures var log := DurableLog(Run(s0, ops));
      && c + 2 <= |log| && log[c + 1].EndCheckpointLog?
      && transactionManager.nextXid == NextXidAfter(Analyze(log, c), old(transactionManager.nextXid))
      && NextIdOk(log, c, old(transactionManager.nextXid), transactionManager.nextXid)
  {
    ghost var m;
    c, m := RunRestartable(lm, s0, ops);
    ghost var start, order;
    restart, start, order := RestartDatabase(lm.disk, pageDisk, transactionManager, controlLsn, s0.cur, s0.tm.nextXid, DurableLog(Run(s0, ops)), c, m);
  }
}
