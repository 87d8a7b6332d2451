/** What five frames before the crash mean for redo after it: only a page that
    was read again between two of its records can make redo lose an entry. */
module PooledRestarts {
  import opened Types
  import opened Lists
  import opened Bytes
  import opened Pages
  import opened Wal
  import opened Transactions
  import LogManagement
  import opened Engine
  import opened EngineInv
  import opened EngineEnds
  import opened EngineDisk
  import opened Recovery
  import opened EngineHistory
  import opened CrashRecovery
  import opened Caches
  import opened BufferPools
  import opened CachedRedo
  import opened RedoWindow
  import opened CachedRecovery
  import opened CachedPages
  import opened Restarts
  import opened RestartFromDisk
  import opened PoolTraces
  import opened PooledRuns

  // The pool is empty when the database starts.
  function ColdStart(s: Engine): Pooled { Pooled(s, Cold(s.disk), {}) }

  lemma StartInv(s: Engine)
    requires Init(s)
    ensures PoolInv(ColdStart(s))
  {
    InitInv(s);
    InitDisk(s);
    var b :| CleanWal(s.wal, b);
    assert View(Cold(s.disk)) == s.disk;
  }

  lemma FirstInv(p: Pooled, ops: seq<PoolOp>)
    requires PoolInv(p) && PoolOpsOk(ops) && Bounded(PoolRun(p, ops).s) && ops != []
    ensures PoolInv(PoolStep(p, ops[0])) && Bounded(p.s) && PoolOpOk(ops[0]) && Bounded(PoolStep(p, ops[0]).s)
  {
    var q := PoolStep(p, ops[0]);
    PoolRunIs(q, ops[1..]);
    RunGrows(q.s, RunOps(q, ops[1..]));
    StepIsRun(p, ops[0]);
    RunGrows(p.s, StepOps(p, ops[0]));
    assert PoolOpOk(ops[0]);
    PoolStepInv(p, ops[0]);
  }

  lemma {:induction false} PoolRunInv(p: Pooled, ops: seq<PoolOp>)
    requires PoolInv(p) && PoolOpsOk(ops) && Bounded(PoolRun(p, ops).s)
    ensures PoolInv(PoolRun(p, ops))
    decreases |ops|
  {
    if ops != [] {
      FirstInv(p, ops);
      PoolRunInv(PoolStep(p, ops[0]), ops[1..]);
    }
  }

  /** At every moment of a pooled run the pages in memory and in the files are
      those of a cache of five frames, and the engine's dirty pages its dirty
      frames. */
  lemma FiveFrames(s0: Engine, ops: seq<PoolOp>)
    requires Init(s0) && PoolOpsOk(ops) && Bounded(PoolRun(ColdStart(s0), ops).s)
    ensures InPool(PoolRun(ColdStart(s0), ops))
    ensures PoolRun(ColdStart(s0), ops).s == Run(s0, RunOps(ColdStart(s0), ops))
  {
    StartInv(s0);
    PoolRunInv(ColdStart(s0), ops);
    PoolRunIs(ColdStart(s0), ops);
  }

  // ---- what is left for redo ----------------------------------------------

  lemma DurableWindow(s: Engine, rereads: set<Reread>, dpt: map<PageKey, Lsn>, a: nat, b: nat, k: PageKey)
    requires s.wal.durable <= |s.wal.log| && WindowsSmall(s.wal.log, s.disk, rereads)
    requires Neighbours(DurableLog(s), a, b, s.disk, k) && |Between(DurableLog(s), a, b, dpt)| >= BUFFER_SIZE
    ensures ReadBetween(rereads, k, a, b)
  {
    var log := s.wal.log;
    forall h | a <= h <= b ensures DurableLog(s)[h] == log[h] {}
    assert Missing(log, a, s.disk, k) && Missing(log, b, s.disk, k);
    assert Neighbours(log, a, b, s.disk, k);
    assert Between(DurableLog(s), a, b, dpt) <= KeysBetween(log, a, b);
    SubsetCard(Between(DurableLog(s), a, b, dpt), KeysBetween(log, a, b));
  }

  /** Two records of one page that its file lacks, and five other pages that redo
      asks for in between: then the page was read in between, without a record.
      Had it not been, five frames would have had no room for it, and the first
      of the two records would be in the file. */
  lemma RereadNeeded(s0: Engine, ops: seq<PoolOp>, dpt: map<PageKey, Lsn>, a: nat, b: nat, k: PageKey)
    requires Init(s0) && PoolOpsOk(ops) && Bounded(PoolRun(ColdStart(s0), ops).s)
    requires var s := PoolRun(ColdStart(s0), ops).s;
      && s.wal.durable <= |s.wal.log| && Neighbours(DurableLog(s), a, b, s.disk, k)
      && |Between(DurableLog(s), a, b, dpt)| >= BUFFER_SIZE
    ensures ReadBetween(PoolRun(ColdStart(s0), ops).rereads, k, a, b)
  {
    StartInv(s0);
    PoolRunInv(ColdStart(s0), ops);
    var p := PoolRun(ColdStart(s0), ops);
    DurableWindow(p.s, p.rereads, dpt, a, b, k);
  }

  // No page was read between two of its records that its file lacks.
  ghost predicate NeverReread(p: Pooled) {
    p.s.wal.durable <= |p.s.wal.log| ==>
      forall a: nat, b: nat, k :: Neighbours(DurableLog(p.s), a, b, p.s.disk, k) ==> !ReadBetween(p.rereads, k, a, b)
  }

  /** Then redo keeps up, however many pages it asks for. */
  lemma NeverRereadKeepsUp(s0: Engine, ops: seq<PoolOp>)
    requires Init(s0) && PoolOpsOk(ops) && Bounded(PoolRun(ColdStart(s0), ops).s)
    requires NeverReread(PoolRun(ColdStart(s0), ops))
    ensures RedoKeepsUp(PoolRun(ColdStart(s0), ops).s)
  {
    var s := PoolRun(ColdStart(s0), ops).s;
    if s.wal.durable <= |s.wal.log| {
      var log, c := DurableLog(s), CheckpointAt(s.wal.log, |s.wal.log|);
      if c + 2 <= |log| && log[c + 1].EndCheckpointLog? {
        var dpt := Analyze(log, c).dpt;
        forall a: nat, b: nat, k | Neighbours(log, a, b, s.disk, k) ensures |Between(log, a, b, dpt)| < BUFFER_SIZE {
          if |Between(log, a, b, dpt)| >= BUFFER_SIZE { RereadNeeded(s0, ops, dpt, a, b, k); }
        }
      }
    }
  }

  // Pages are asked for only to change a row in them.
  ghost predicate OnlyWrites(p: Pooled, ops: seq<PoolOp>)
    decreases |ops|
  {
    ops == [] || (Writes(p, ops[0]) && OnlyWrites(PoolStep(p, ops[0]), ops[1..]))
  }

  ghost predicate Writes(p: Pooled, op: PoolOp) {
    op.Do? && (FirstPage(op.op).Some? ==> |p.s.wal.log| < |PoolStep(p, op).s.wal.log|)
  }

  lemma {:induction false} WritesOnly(p: Pooled, ops: seq<PoolOp>)
    requires PoolInv(p) && PoolOpsOk(ops) && Bounded(PoolRun(p, ops).s) && OnlyWrites(p, ops)
    ensures PoolRun(p, ops).rereads == p.rereads
    decreases |ops|
  {
    if ops != [] {
      var q := PoolStep(p, ops[0]);
      FirstInv(p, ops);
      WriteIsNoReread(p, ops[0]);
      WritesOnly(q, ops[1..]);
    }
  }

  // Asking for pages leaves log and history alone.
  lemma AskMaybeSame(p: Pooled, k: Option<PageKey>)
    requires PoolCore(p)
    ensures var q := AskMaybe(p, k); PoolCore(q) && q.s.wal.log == p.s.wal.log && q.rereads == p.rereads
  {
    if k.Some? { AskCore(p, k.value); }
  }

  lemma AskForSame(p: Pooled, o: Op)
    requires PoolCore(p)
    ensures AskFor(p, o).s.wal.log == p.s.wal.log && AskFor(p, o).rereads == p.rereads
  {
    AskMaybeSame(p, FirstPage(o));
    AskMaybeSame(AskMaybe(p, FirstPage(o)), SecondPage(o));
  }

  lemma DoRereads(p: Pooled, o: Op)
    requires AskFor(p, o).s.wal.log == p.s.wal.log && AskFor(p, o).rereads == p.rereads
    requires FirstPage(o).Some? ==> |p.s.wal.log| < |PoolDo(p, o).s.wal.log|
    ensures PoolDo(p, o).rereads == p.rereads
  {
  }

  lemma WriteIsNoReread(p: Pooled, op: PoolOp)
    requires PoolInv(p) && Bounded(p.s) && Writes(p, op)
    ensures PoolStep(p, op).rereads == p.rereads
  {
    if !op.op.Evict? {
      AskForSame(p, op.op);
      DoRereads(p, op.op);
    }
  }

  /** So it does after every run that asks for pages only to change rows in
      them: five other pages in between would have written the first one back. */
  lemma WritesKeepUp(s0: Engine, ops: seq<PoolOp>)
    requires Init(s0) && PoolOpsOk(ops) && Bounded(PoolRun(ColdStart(s0), ops).s) && OnlyWrites(ColdStart(s0), ops)
    ensures RedoKeepsUp(PoolRun(ColdStart(s0), ops).s)
  {
    StartInv(s0);
    WritesOnly(ColdStart(s0), ops);
    NeverRereadKeepsUp(s0, ops);
  }

  /** Crash and restart for a run behind five frames in which no page is read
      again between two of its records: whatever the number of pages, what a
      new transaction reads is what was committed. */
  method CrashAndRestartPooled(lm: LogManagement.LogManager, pageDisk: PageDisk, transactionManager: TransactionManager, controlLsn: Lsn,
                               ghost s0: Engine, ghost ops: seq<PoolOp>)
    returns (restart: Restart)
    requires Init(s0) && PoolOpsOk(ops) && Bounded(PoolRun(ColdStart(s0), ops).s) && NeverReread(PoolRun(ColdStart(s0), ops))
    requires lm.Valid() && lm.w == PoolRun(ColdStart(s0), ops).s.wal
    requires WholePages(pageDisk.pages) && AllLaidOut(pageDisk.pages)
    requires PagesOf(pageDisk.pages) == PoolRun(ColdStart(s0), ops).cache.disk
    modifies lm.disk, pageDisk, transactionManager
    ensures fresh(restart) && restart.Valid()
    ensures var s := PoolRun(ColdStart(s0), ops).s;
      s.wal.durable <= |s.wal.log| && OnlyCommitted(s0.cur, DurableLog(s), restart.store.Pages())
  {
    FiveFrames(s0, ops);
    RunOpsOk(ColdStart(s0), ops);
    NeverRereadKeepsUp(s0, ops);
    ghost var c;
    restart, c := CrashAndRestart(lm, pageDisk, transactionManager, controlLsn, s0, RunOps(ColdStart(s0), ops));
  }
}
