/** The engine behind its buffer pool: a run whose page writes are those of five
    frames, and the pages such a run leaves for redo. */
module PooledRuns {
  import opened Types
  import Lists
  import opened Locks
  import opened Visibility
  import opened Pages
  import opened Wal
  import opened Replay
  import opened Engine
  import opened EngineInv
  import opened EngineRows
  import opened EngineEnds
  import opened EngineDisk
  import opened Recovery
  import opened EngineHistory
  import opened CrashRecovery
  import opened Caches
  import opened CachedRedo
  import opened RedoWindow
  import opened PoolTraces

  /** `rereads` is history: the pages that were asked for without a record. */
  datatype Pooled = Pooled(s: Engine, cache: Cache<Page>, rereads: set<Reread>)

  // A page is read, by a scan or on the way along a chain, or an operation runs.
  datatype PoolOp = ReadPage(key: PageKey) | Do(op: Op)

  // ---- the step -----------------------------------------------------------

  // What asking for page `k` makes the engine write.
  function EvictsFor(c: Cache<Page>, k: PageKey): seq<Op> {
    if c.keys != [] && WrittenBack(c, k) != {} then [Evict(Oldest(c))] else []
  }

  function Ask(p: Pooled, k: PageKey): Pooled {
    if k in View(p.cache) then Pooled(Run(p.s, EvictsFor(p.cache, k)), Fetched(p.cache, k), p.rereads) else p
  }

  function AskOps(p: Pooled, k: PageKey): seq<Op> {
    if k in View(p.cache) then EvictsFor(p.cache, k) else []
  }

  // The page an operation asks for to write a row, and the one for the new version of an update.
  function FirstPage(op: Op): Option<PageKey> {
    match op
    case InsertRow(_, k, _) => Some(k)
    case DeleteRow(_, _, l) => Some(KeyOf(l))
    case UpdateRow(_, _, l, _, _) => Some(KeyOf(l))
    case _ => None
  }

  function AskMaybe(p: Pooled, k: Option<PageKey>): Pooled {
    if k.Some? then Ask(p, k.value) else p
  }

  function SecondPage(op: Op): Option<PageKey> {
    if op.UpdateRow? then Some(op.key) else None
  }

  function AskFor(p: Pooled, op: Op): Pooled { AskMaybe(AskMaybe(p, FirstPage(op)), SecondPage(op)) }

  // The page just changed is marked dirty in its frame.
  function StoreMaybe(c: Cache<Page>, k: Option<PageKey>, ps: PageMap): Cache<Page> {
    if k.Some? && k.value in ps then Stored(c, k.value, ps[k.value]) else c
  }

  function Missed(k: Option<PageKey>, at: nat): set<Reread> { if k.Some? then {Reread(k.value, at)} else {} }

  /** An operation asks for its pages; if it goes through they are changed in
      their frames, otherwise they were only read. */
  function PoolDo(p: Pooled, op: Op): Pooled {
    var q := AskFor(p, op);
    var t := Step(q.s, op);
    if |q.s.wal.log| < |t.wal.log| then
      Pooled(t, StoreMaybe(StoreMaybe(q.cache, FirstPage(op), t.cur), SecondPage(op), t.cur), q.rereads)
    else
      Pooled(t, q.cache, q.rereads + Missed(FirstPage(op), |q.s.wal.log|) + Missed(SecondPage(op), |q.s.wal.log|))
  }

  // Pages are written by the pool alone.
  function PoolStep(p: Pooled, op: PoolOp): Pooled {
    match op
    case ReadPage(k) => Ask(p, k).(rereads := p.rereads + {Reread(k, |p.s.wal.log|)})
    case Do(o) => if o.Evict? then p else PoolDo(p, o)
  }

  function PoolRun(p: Pooled, ops: seq<PoolOp>): Pooled
    decreases |ops|
  {
    if ops == [] then p else PoolRun(PoolStep(p, ops[0]), ops[1..])
  }

  // The operations of the engine that a step comes to.
  function StepOps(p: Pooled, op: PoolOp): seq<Op> {
    match op
    case ReadPage(k) => AskOps(p, k)
    case Do(o) =>
      if o.Evict? then []
      else
        var q := AskMaybe(p, FirstPage(o));
        (if FirstPage(o).Some? then AskOps(p, FirstPage(o).value) else [])
        + (if SecondPage(o).Some? then AskOps(q, SecondPage(o).value) else []) + [o]
  }

  function RunOps(p: Pooled, ops: seq<PoolOp>): seq<Op>
    decreases |ops|
  {
    if ops == [] then [] else StepOps(p, ops[0]) + RunOps(PoolStep(p, ops[0]), ops[1..])
  }

  lemma {:induction false} RunSplit(s: Engine, a: seq<Op>, b: seq<Op>)
    ensures Run(s, a + b) == Run(Run(s, a), b)
    decreases |a|
  {
    if a == [] {
      assert a + b == b;
    } else {
      assert (a + b)[1..] == a[1..] + b;
      RunSplit(Step(s, a[0]), a[1..], b);
    }
  }

  lemma RunOne(s: Engine, op: Op)
    ensures Run(s, [op]) == Step(s, op)
  {
    assert Run(Step(s, op), [op][1..]) == Step(s, op);
  }

  lemma StepIsRun(p: Pooled, op: PoolOp)
    ensures PoolStep(p, op).s == Run(p.s, StepOps(p, op))
  {
    if op.Do? && !op.op.Evict? {
      var o := op.op;
      var q := AskMaybe(p, FirstPage(o));
      var a := if FirstPage(o).Some? then AskOps(p, FirstPage(o).value) else [];
      var b := if SecondPage(o).Some? then AskOps(q, SecondPage(o).value) else [];
      RunSplit(p.s, a + b, [o]);
      RunSplit(p.s, a, b);
      RunOne(Run(p.s, a + b), o);
    }
  }

  /** A pooled run is a run of the engine: what holds of every run holds of it. */
  lemma {:induction false} PoolRunIs(p: Pooled, ops: seq<PoolOp>)
    ensures PoolRun(p, ops).s == Run(p.s, RunOps(p, ops))
    decreases |ops|
  {
    if ops != [] {
      StepIsRun(p, ops[0]);
      PoolRunIs(PoolStep(p, ops[0]), ops[1..]);
      RunSplit(p.s, StepOps(p, ops[0]), RunOps(PoolStep(p, ops[0]), ops[1..]));
    }
  }

  // Writers as in the run theorems, and no rollback.
  predicate PoolOpOk(op: PoolOp) { op.Do? ==> WriterOk(op.op) && NoRollback(op.op) }

  ghost predicate PoolOpsOk(ops: seq<PoolOp>) { forall i :: 0 <= i < |ops| ==> PoolOpOk(ops[i]) }

  lemma StepOpsOk(p: Pooled, op: PoolOp)
    requires PoolOpOk(op)
    ensures WritersOk(StepOps(p, op)) && forall i :: 0 <= i < |StepOps(p, op)| ==> NoRollback(StepOps(p, op)[i])
  {
  }

  lemma {:induction false} RunOpsOk(p: Pooled, ops: seq<PoolOp>)
    requires PoolOpsOk(ops)
    ensures WritersOk(RunOps(p, ops)) && forall i :: 0 <= i < |RunOps(p, ops)| ==> NoRollback(RunOps(p, ops)[i])
    decreases |ops|
  {
    if ops != [] {
      assert PoolOpOk(ops[0]);
      StepOpsOk(p, ops[0]);
      RunOpsOk(PoolStep(p, ops[0]), ops[1..]);
    }
  }

  // ---- the pool and the engine agree --------------------------------------

  /** The cache holds at most five pages; what it and the files hold is what the
      engine says is cached, on disk and dirty. */
  ghost predicate InPool(p: Pooled) {
    CacheOk(p.cache) && View(p.cache) == p.s.cur && p.cache.disk == p.s.disk && p.cache.dirty == p.s.dirty
  }

  ghost predicate PoolInv(p: Pooled) {
    && Inv(p.s) && DiskInv(p.s) && InPool(p)
    && TraceInv(p.cache.keys, p.s.wal.log, p.s.disk, p.rereads)
  }

  // Asking for a page writes at most one other page, and changes nothing that anyone reads.
  ghost predicate OnlyWrote(s: Engine, t: Engine) {
    && t == s.(wal := t.wal, disk := t.disk, dirty := t.dirty, writtenAt := t.writtenAt)
    && t.wal.log == s.wal.log && t.wal.nextLsn == s.wal.nextLsn
  }

  lemma EvictWrites(s: Engine, v: PageKey)
    requires WalInv(s.wal) && v in s.dirty && v in s.cur
    ensures Run(s, [Evict(v)]) == StepEvict(s, v) && OnlyWrote(s, StepEvict(s, v))
    ensures StepEvict(s, v).disk == s.disk[v := s.cur[v]] && StepEvict(s, v).dirty == s.dirty - {v}
  {
    RunOne(s, Evict(v));
    FlushToFacts(s.wal, s.cur[v].lsn);
  }

  // No frame has to be written for it.
  lemma AskQuietly(p: Pooled, k: PageKey)
    requires InPool(p) && k in p.s.cur && WrittenBack(p.cache, k) == {}
    ensures Ask(p, k) == p.(cache := Fetched(p.cache, k)) && InPool(Ask(p, k))
  {
    var c := p.cache;
    FetchedFacts(c, k);
    FetchedDirty(c, k);
    FetchedDisk(c, k);
    assert c.dirty - {} == c.dirty;
    assert Fetched(c, k).disk == c.disk;
  }

  // The oldest page is written first.
  lemma AskWriting(p: Pooled, k: PageKey)
    requires InPool(p) && WalInv(p.s.wal) && k in p.s.cur && WrittenBack(p.cache, k) != {}
    ensures p.cache.keys != [] && Oldest(p.cache) in p.s.dirty && Oldest(p.cache) in p.s.cur
    ensures Ask(p, k) == Pooled(StepEvict(p.s, Oldest(p.cache)), Fetched(p.cache, k), p.rereads) && InPool(Ask(p, k))
    ensures OnlyWrote(p.s, Ask(p, k).s) && Ask(p, k).s.disk == p.s.disk[Oldest(p.cache) := p.s.cur[Oldest(p.cache)]]
  {
    var c := p.cache;
    var v := Oldest(c);
    assert v in c.mem && c.mem[v] == p.s.cur[v];
    FetchedFacts(c, k);
    FetchedDirty(c, k);
    FetchedDisk(c, k);
    EvictWrites(p.s, v);
    assert Fetched(c, k).disk == c.disk[v := c.mem[v]];
  }

  lemma AskInPool(p: Pooled, k: PageKey)
    requires InPool(p) && WalInv(p.s.wal) && k in p.s.cur
    ensures InPool(Ask(p, k)) && OnlyWrote(p.s, Ask(p, k).s) && Ask(p, k).cache.keys == Front(p.cache.keys, k)
    ensures k in Ask(p, k).cache.mem
    ensures WrittenBack(p.cache, k) != {} ==> p.cache.keys != [] && Oldest(p.cache) in p.s.cur
    ensures Ask(p, k).s.disk ==
      if WrittenBack(p.cache, k) != {} then p.s.disk[Oldest(p.cache) := p.s.cur[Oldest(p.cache)]] else p.s.disk
  {
    FetchedKeys(p.cache, k);
    FetchedFacts(p.cache, k);
    if WrittenBack(p.cache, k) != {} { AskWriting(p, k); } else { AskQuietly(p, k); }
  }

  // Page files only get newer.
  lemma AskNewer(p: Pooled, k: PageKey, j: PageKey)
    requires InPool(p) && WalInv(p.s.wal) && k in p.s.cur && PageOk(p.s, j) && j in p.s.disk && p.s.disk.Keys == p.s.cur.Keys
    ensures Ask(p, k).s.disk.Keys == p.s.disk.Keys && p.s.disk[j].lsn <= Ask(p, k).s.disk[j].lsn
  {
    AskInPool(p, k);
  }

  // A page that leaves the cache has all its records on disk.
  lemma AskGone(p: Pooled, k: PageKey, j: PageKey)
    requires InPool(p) && WalInv(p.s.wal) && k in p.s.cur && PageOk(p.s, j) && j in p.cache.keys && j !in Front(p.cache.keys, k)
    ensures forall i :: 0 <= i < |p.s.wal.log| ==> !Missing(p.s.wal.log, i, Ask(p, k).s.disk, j)
  {
    Leaver(p.cache.keys, k, j);
    LeaverOnDisk(p, k, j);
  }

  lemma AskAccess(p: Pooled, k: PageKey)
    requires InPool(p) && WalInv(p.s.wal) && k in p.s.cur && p.s.disk.Keys == p.s.cur.Keys && forall j :: PageOk(p.s, j)
    ensures AccessOf(p.cache.keys, Ask(p, k).cache.keys, p.s.wal.log, p.s.disk, Ask(p, k).s.disk, k)
  {
    var keys', d := Ask(p, k).cache.keys, Ask(p, k).s.disk;
    AskInPool(p, k);
    forall j | j in p.s.disk ensures d.Keys == p.s.disk.Keys && p.s.disk[j].lsn <= d[j].lsn {
      assert PageOk(p.s, j);
      AskNewer(p, k, j);
    }
    assert PageOk(p.s, k);
    AskNewer(p, k, k);
    forall i, j | 0 <= i < |p.s.wal.log| && j in p.cache.keys && j !in keys' ensures !Missing(p.s.wal.log, i, d, j) {
      assert PageOk(p.s, j);
      AskGone(p, k, j);
    }
  }

  lemma LeaverOnDisk(p: Pooled, k: PageKey, j: PageKey)
    requires InPool(p) && WalInv(p.s.wal) && k in p.s.cur && k !in p.cache.keys && |p.cache.keys| == BUFFER_SIZE && j == Oldest(p.cache)
    ensures j in p.s.cur && j in Ask(p, k).s.disk && Ask(p, k).s.disk[j] == p.s.cur[j]
  {
    AskInPool(p, k);
    assert j in p.cache.mem;
  }

  lemma Leaver(keys: seq<PageKey>, k: PageKey, j: PageKey)
    requires Lists.Distinct(keys) && |keys| <= BUFFER_SIZE && j in keys && j !in Front(keys, k)
    ensures k !in keys && |keys| == BUFFER_SIZE && j == keys[|keys| - 1]
  {
    FrontFacts(keys, k);
    var f := Front(keys, k);
    var m := |f| - 1;
    assert k !in keys && f == [f[0]] + keys[..m];
    assert keys == keys[..m] + keys[m..];
    assert j in keys[m..];
  }

  // ---- what the operations change -----------------------------------------

  // One row record on page `k`, or nothing that concerns pages and log.
  ghost predicate RowGoes(s: Engine, t: Engine, k: PageKey) {
    && t.disk == s.disk
    && (if |s.wal.log| < |t.wal.log| then
          && k in s.cur && k in t.cur && t.cur == s.cur[k := t.cur[k]] && t.dirty == s.dirty + {k}
          && t.wal.log == s.wal.log + [t.wal.log[|s.wal.log|]] && OnPage(t.wal.log[|s.wal.log|], k)
        else t.wal.log == s.wal.log && t.cur == s.cur && t.dirty == s.dirty)
  }

  lemma InsertRowGoes(s: Engine, x: Xid, k: PageKey, payload: seq<byte>)
    ensures RowGoes(s, StepInsert(s, x, k, payload), k)
  {
    if Running(s, x) && Fits(s, k, payload) && LockTableOk(s.locks, x, IX, k.oid) {
      InsertGoes(WithLocks(s, AfterLockTable(s.locks, x, IX, k.oid)), x, k, payload, NextLoc(s.cur, k));
    }
  }

  lemma InsertGoes(s: Engine, x: Xid, k: PageKey, payload: seq<byte>, row: Loc)
    requires x in s.wal.att && x in s.cmd && Fits(s, k, payload)
    ensures var t := DoInsert(s, x, k, payload, row); RowGoes(s, t, k) && |s.wal.log| < |t.wal.log|
  {
  }

  lemma DeleteGoes(s: Engine, x: Xid, l: Loc)
    requires x in s.wal.att && HasLoc(s.cur, l)
    ensures var t := DoDelete(s, x, l); RowGoes(s, t, KeyOf(l)) && |s.wal.log| < |t.wal.log|
  {
  }

  lemma DeleteRowGoes(s: Engine, x: Xid, iso: Isolation, l: Loc)
    ensures RowGoes(s, StepDelete(s, x, iso, l), KeyOf(l))
  {
    if Running(s, x) && HasLoc(s.cur, l) {
      var (s1, go) := ScanAndLock(s, x, iso, l);
      if go { DeleteGoes(s1, x, l); }
    }
  }

  // Two records, by way of `mid`, or nothing.
  ghost predicate UpdateGoes(s: Engine, mid: Engine, t: Engine, k: PageKey, k': PageKey) {
    if |s.wal.log| < |t.wal.log| then
      RowGoes(s, mid, k) && |s.wal.log| < |mid.wal.log| && RowGoes(mid, t, k') && |mid.wal.log| < |t.wal.log|
    else t.disk == s.disk && t.wal.log == s.wal.log && t.cur == s.cur && t.dirty == s.dirty
  }

  lemma BothGo(s: Engine, x: Xid, l: Loc, k: PageKey, payload: seq<byte>, row: Loc)
    requires x in s.wal.att && x in s.cmd && HasLoc(s.cur, l) && Fits(DoDelete(s, x, l), k, payload)
    ensures var mid := DoDelete(s, x, l);
      UpdateGoes(s, mid, DoInsert(mid, x, k, payload, row), KeyOf(l), k)
  {
    DeleteGoes(s, x, l);
    InsertGoes(DoDelete(s, x, l), x, k, payload, row);
  }

  lemma LocksAside(s: Engine, s1: Engine, mid: Engine, s3: Engine, t: Engine, k: PageKey, k': PageKey)
    requires UpdateGoes(s1, mid, s3, k, k') && s1 == s.(locks := s1.locks) && t == s3.(locks := t.locks)
    ensures UpdateGoes(s, mid, t, k, k')
  {
  }

  lemma UpdateRefusedGoes(s: Engine, x: Xid, iso: Isolation, l: Loc, k: PageKey, payload: seq<byte>)
    requires UpdateReady(s, x, iso, l, k, payload) ==> !ScanAndLock(s, x, iso, l).1
    ensures UpdateGoes(s, s, StepUpdate(s, x, iso, l, k, payload), KeyOf(l), k)
  {
  }

  lemma UpdateRowGoes(s: Engine, x: Xid, iso: Isolation, l: Loc, k: PageKey, payload: seq<byte>) returns (mid: Engine)
    requires Inv(s) && iso != REPEATABLE_READ && Bounded(StepUpdate(s, x, iso, l, k, payload))
    ensures UpdateGoes(s, mid, StepUpdate(s, x, iso, l, k, payload), KeyOf(l), k)
  {
    if UpdateReady(s, x, iso, l, k, payload) && ScanAndLock(s, x, iso, l).1 {
      var s1, s2, s3 := UpdateParts(s, x, iso, l, k, payload);
      BothGo(s1, x, l, k, payload, s.rowOf[l]);
      LocksAside(s, s1, s2, s3, StepUpdate(s, x, iso, l, k, payload), KeyOf(l), k);
      mid := s2;
    } else {
      mid := s;
      UpdateRefusedGoes(s, x, iso, l, k, payload);
    }
  }

  // No page changes, and no record is about a row.
  ghost predicate Quiet(s: Engine, t: Engine) {
    && t.disk == s.disk && t.cur == s.cur && t.dirty == s.dirty && s.wal.log <= t.wal.log
    && forall i :: |s.wal.log| <= i < |t.wal.log| ==> !IsRowRec(t.wal.log[i])
  }

  lemma QuietMore(s: Engine, t: Engine, more: seq<LogRec>)
    requires t.disk == s.disk && t.cur == s.cur && t.dirty == s.dirty && t.wal.log == s.wal.log + more
    requires forall i :: 0 <= i < |more| ==> !IsRowRec(more[i])
    ensures Quiet(s, t)
  {
  }

  lemma EndLogs(w: Wal, x: Xid)
    requires x in w.att
    ensures AppendEnd(w, x, true).log == w.log + [EndRec(w, x, true)]
  {
  }

  lemma QuietCommit(s: Engine, x: Xid)
    ensures Quiet(s, StepCommit(s, x))
  {
    if x !in s.tm.cids || x !in s.tm.snaps || x !in s.wal.att {
      QuietMore(s, s, []);
    } else {
      EndLogs(s.wal, x);
      QuietMore(s, StepCommit(s, x), [EndRec(s.wal, x, true)]);
    }
  }

  lemma QuietBegin(s: Engine)
    ensures Quiet(s, Step(s, Begin))
  {
    if s.tm.nextXid in s.wal.att {
      QuietMore(s, s, []);
    } else {
      QuietMore(s, Step(s, Begin), [BeginLog(s.wal.nextLsn, s.tm.nextXid, NULL_LSN)]);
    }
  }

  lemma QuietCommand(s: Engine, x: Xid)
    ensures Quiet(s, Step(s, Command(x)))
  {
    QuietMore(s, Step(s, Command(x)), []);
  }

  lemma QuietLock(s: Engine, op: Op)
    requires op.LockTableStmt? || op.LockRowStmt?
    ensures Quiet(s, Step(s, op))
  {
    QuietMore(s, Step(s, op), []);
  }

  lemma QuietCheckpoint(s: Engine)
    requires WalInv(s.wal) && Bounded(Step(s, TakeCheckpoint))
    ensures Quiet(s, Step(s, TakeCheckpoint))
  {
    CheckpointFits(s);
    CheckpointLogIs(s.wal);
  }

  lemma QuietFlush(s: Engine)
    requires WalInv(s.wal)
    ensures Quiet(s, Step(s, FlushLog))
  {
    FlushToFacts(s.wal, NULL_LSN);
  }

  lemma QuietStep(s: Engine, op: Op)
    requires WalInv(s.wal) && Bounded(Step(s, op))
    requires FirstPage(op).None? && !op.Evict? && !op.Rollback?
    ensures Quiet(s, Step(s, op))
  {
    match op
    case Begin => QuietBegin(s);
    case Commit(x) => QuietCommit(s, x);
    case FlushLog => QuietFlush(s);
    case TakeCheckpoint => QuietCheckpoint(s);
    case Command(x) => QuietCommand(s, x);
    case _ => QuietLock(s, op);
  }

  // ---- every step keeps it ------------------------------------------------

  ghost predicate PoolCore(p: Pooled) { Inv(p.s) && DiskInv(p.s) && InPool(p) && Bounded(p.s) }

  lemma AskCore(p: Pooled, k: PageKey)
    requires PoolCore(p)
    ensures PoolCore(Ask(p, k)) && OnlyWrote(p.s, Ask(p, k).s)
  {
    if k in p.s.cur {
      AskInPool(p, k);
      if WrittenBack(p.cache, k) != {} {
        AskWriting(p, k);
        StepInv(p.s, Evict(Oldest(p.cache)));
        StepDisk(p.s, Evict(Oldest(p.cache)));
      } else {
        AskQuietly(p, k);
      }
    }
  }

  lemma AskRead(p: Pooled, k: PageKey)
    requires PoolCore(p) && TraceInv(p.cache.keys, p.s.wal.log, p.s.disk, p.rereads)
    ensures TraceInv(Ask(p, k).cache.keys, p.s.wal.log, Ask(p, k).s.disk, p.rereads + {Reread(k, |p.s.wal.log|)})
  {
    if k in p.s.cur {
      AskAccess(p, k);
      ReadKeeps(p.cache.keys, Ask(p, k).cache.keys, p.s.wal.log, p.s.disk, Ask(p, k).s.disk, p.rereads, k);
    } else {
      MoreRereads(p.cache.keys, p.s.wal.log, p.s.disk, p.rereads, p.rereads + {Reread(k, |p.s.wal.log|)});
    }
  }

  lemma ReadStep(p: Pooled, k: PageKey)
    requires PoolInv(p) && Bounded(p.s)
    ensures PoolInv(PoolStep(p, ReadPage(k)))
  {
    AskCore(p, k);
    AskRead(p, k);
  }

  // The page that was written to is dirty in its frame.
  lemma StoredInPool(c: Cache<Page>, s: Engine, t: Engine, k: PageKey)
    requires CacheOk(c) && View(c) == s.cur && c.disk == s.disk && c.dirty == s.dirty && k in c.mem
    requires RowGoes(s, t, k) && |s.wal.log| < |t.wal.log|
    ensures InPool(Pooled(t, Stored(c, k, t.cur[k]), {}))
  {
    StoredFacts(c, k, t.cur[k]);
  }

  // An insert or a delete, after its page was asked for.
  lemma RowDone(p: Pooled, q: Pooled, t: Engine, k: PageKey)
    requires PoolCore(p) && TraceInv(p.cache.keys, p.s.wal.log, p.s.disk, p.rereads) && k in p.s.cur && q == Ask(p, k)
    requires RowGoes(q.s, t, k) && |q.s.wal.log| < |t.wal.log|
    ensures InPool(Pooled(t, Stored(q.cache, k, t.cur[k]), p.rereads))
    ensures TraceInv(q.cache.keys, t.wal.log, t.disk, p.rereads)
  {
    AskInPool(p, k);
    AskAccess(p, k);
    StoredInPool(q.cache, q.s, t, k);
    RowKeeps(p.cache.keys, q.cache.keys, p.s.wal.log, p.s.disk, q.s.disk, p.rereads, k, t.wal.log[|p.s.wal.log|]);
  }

  // An operation on one page, spelled out.
  lemma PoolDoRow(p: Pooled, o: Op, k: PageKey)
    requires FirstPage(o) == Some(k) && SecondPage(o) == None
    ensures var q := Ask(p, k);
      var t := Step(q.s, o);
      PoolDo(p, o) ==
        if |q.s.wal.log| < |t.wal.log| then Pooled(t, if k in t.cur then Stored(q.cache, k, t.cur[k]) else q.cache, q.rereads)
        else Pooled(t, q.cache, q.rereads + {Reread(k, |q.s.wal.log|)})
  {
    var q := Ask(p, k);
    assert AskFor(p, o) == q;
    assert q.rereads + {Reread(k, |q.s.wal.log|)} + {} == q.rereads + {Reread(k, |q.s.wal.log|)};
  }

  lemma RowRefused(p: Pooled, q: Pooled, t: Engine, k: PageKey)
    requires PoolCore(p) && TraceInv(p.cache.keys, p.s.wal.log, p.s.disk, p.rereads) && q == Ask(p, k)
    requires RowGoes(q.s, t, k) && |q.s.wal.log| >= |t.wal.log|
    ensures InPool(Pooled(t, q.cache, p.rereads))
    ensures TraceInv(q.cache.keys, t.wal.log, t.disk, p.rereads + {Reread(k, |q.s.wal.log|)})
  {
    AskCore(p, k);
    AskRead(p, k);
  }

  lemma RowStep(p: Pooled, o: Op, k: PageKey)
    requires PoolInv(p) && PoolCore(p) && WriterOk(o) && FirstPage(o) == Some(k) && SecondPage(o) == None
    requires Bounded(PoolDo(p, o).s) && RowGoes(Ask(p, k).s, Step(Ask(p, k).s, o), k)
    ensures PoolInv(PoolDo(p, o))
  {
    var q := Ask(p, k);
    var t := Step(q.s, o);
    PoolDoRow(p, o, k);
    AskCore(p, k);
    StepInv(q.s, o);
    StepDisk(q.s, o);
    if |q.s.wal.log| < |t.wal.log| {
      RowDone(p, q, t, k);
    } else {
      RowRefused(p, q, t, k);
    }
  }

  lemma PoolDoQuiet(p: Pooled, o: Op)
    requires FirstPage(o).None?
    ensures PoolDo(p, o) == Pooled(Step(p.s, o), p.cache, p.rereads)
  {
    assert AskFor(p, o) == p;
    assert p.rereads + {} + {} == p.rereads;
  }

  lemma QuietTrace(p: Pooled, t: Engine)
    requires TraceInv(p.cache.keys, p.s.wal.log, p.s.disk, p.rereads) && Quiet(p.s, t)
    ensures TraceInv(p.cache.keys, t.wal.log, t.disk, p.rereads)
  {
    var n := |p.s.wal.log|;
    assert t.wal.log == p.s.wal.log + t.wal.log[n..];
    OthersKeep(p.cache.keys, p.s.wal.log, t.wal.log[n..], p.s.disk, p.rereads);
  }

  lemma QuietDo(p: Pooled, o: Op)
    requires PoolInv(p) && PoolCore(p) && WriterOk(o) && NoRollback(o) && !o.Evict? && FirstPage(o).None?
    requires Bounded(Step(p.s, o))
    ensures PoolInv(PoolDo(p, o))
  {
    PoolDoQuiet(p, o);
    QuietStep(p.s, o);
    StepInv(p.s, o);
    StepDisk(p.s, o);
    QuietTrace(p, Step(p.s, o));
  }

  // ---- updates ------------------------------------------------------------

  // Both records of an update, each after its page was asked for.
  lemma TwoRecords(p: Pooled, k: PageKey, k': PageKey, r: LogRec, r': LogRec)
    requires PoolCore(p) && TraceInv(p.cache.keys, p.s.wal.log, p.s.disk, p.rereads) && k in p.s.cur && k' in p.s.cur
    requires OnPage(r, k) && OnPage(r', k')
    ensures var q := Ask(Ask(p, k), k');
      TraceInv(q.cache.keys, p.s.wal.log + [r] + [r'], q.s.disk, p.rereads) && k in q.cache.mem && k' in q.cache.mem
  {
    var q1 := Ask(p, k);
    var q2 := Ask(q1, k');
    AskCore(p, k);
    AskInPool(p, k);
    AskAccess(p, k);
    RowKeeps(p.cache.keys, q1.cache.keys, p.s.wal.log, p.s.disk, q1.s.disk, p.rereads, k, r);
    AskCore(q1, k');
    AskInPool(q1, k');
    AskAccess(q1, k');
    FrontFacts(p.cache.keys, k);
    FirstStays(q1.cache.keys, k');
    AccessAfter(q1.cache.keys, q2.cache.keys, p.s.wal.log, q1.s.disk, q2.s.disk, k', r, k);
    RowKeeps(q1.cache.keys, q2.cache.keys, p.s.wal.log + [r], q1.s.disk, q2.s.disk, p.rereads, k', r');
  }

  lemma StoredTwice(c: Cache<Page>, k: PageKey, k': PageKey, p: Page, q: Page, p': Page)
    requires k == k' || p == q
    ensures Stored(Stored(c, k, p), k', p') == Stored(Stored(c, k, q), k', p')
  {
  }

  lemma TwiceInPool(c: Cache<Page>, s: Engine, mid: Engine, t: Engine, k: PageKey, k': PageKey)
    requires CacheOk(c) && View(c) == s.cur && c.disk == s.disk && c.dirty == s.dirty && k in c.mem && k' in c.mem
    requires UpdateGoes(s, mid, t, k, k') && |s.wal.log| < |t.wal.log|
    ensures k in t.cur && k' in t.cur && InPool(Pooled(t, Stored(Stored(c, k, t.cur[k]), k', t.cur[k']), {}))
  {
    var c1 := Stored(c, k, mid.cur[k]);
    StoredInPool(c, s, mid, k);
    StoredInPool(c1, mid, t, k');
    StoredTwice(c, k, k', mid.cur[k], t.cur[k], t.cur[k']);
  }

  lemma UpdateDone(p: Pooled, mid: Engine, t: Engine, k: PageKey, k': PageKey)
    requires PoolCore(p) && TraceInv(p.cache.keys, p.s.wal.log, p.s.disk, p.rereads)
    requires UpdateGoes(Ask(Ask(p, k), k').s, mid, t, k, k') && |p.s.wal.log| < |t.wal.log|
    ensures k in t.cur && k' in t.cur
    ensures var q := Pooled(t, Stored(Stored(Ask(Ask(p, k), k').cache, k, t.cur[k]), k', t.cur[k']), p.rereads);
      InPool(q) && TraceInv(q.cache.keys, t.wal.log, t.disk, p.rereads)
  {
    var n := |p.s.wal.log|;
    AskCore(p, k);
    AskCore(Ask(p, k), k');
    TwoRecords(p, k, k', t.wal.log[n], t.wal.log[n + 1]);
    assert t.wal.log == p.s.wal.log + [t.wal.log[n]] + [t.wal.log[n + 1]];
    var q := Ask(Ask(p, k), k');
    TwiceInPool(q.cache, q.s, mid, t, k, k');
  }

  // An update that is refused has read its pages.
  lemma UpdateRefused(p: Pooled, k: PageKey, k': PageKey)
    requires PoolCore(p) && TraceInv(p.cache.keys, p.s.wal.log, p.s.disk, p.rereads)
    ensures var q := Ask(Ask(p, k), k');
      && PoolCore(q) && q.s.wal.log == p.s.wal.log
      && TraceInv(q.cache.keys, p.s.wal.log, q.s.disk, p.rereads + {Reread(k, |p.s.wal.log|)} + {Reread(k', |p.s.wal.log|)})
  {
    AskCore(p, k);
    AskRead(p, k);
    var q1 := Ask(p, k).(rereads := p.rereads + {Reread(k, |p.s.wal.log|)});
    AskCore(q1, k');
    AskRead(q1, k');
  }

  lemma UpdateStep(p: Pooled, o: Op)
    requires PoolInv(p) && PoolCore(p) && o.UpdateRow? && WriterOk(o) && Bounded(PoolDo(p, o).s)
    ensures PoolInv(PoolDo(p, o))
  {
    var k, k' := KeyOf(o.l), o.key;
    var q := Ask(Ask(p, k), k');
    var t := Step(q.s, o);
    UpdateRefused(p, k, k');
    StepInv(q.s, o);
    StepDisk(q.s, o);
    var mid := UpdateRowGoes(q.s, o.x, o.iso, o.l, o.key, o.payload);
    if |q.s.wal.log| < |t.wal.log| { UpdateDone(p, mid, t, k, k'); }
  }

  lemma PoolStepInv(p: Pooled, op: PoolOp)
    requires PoolInv(p) && PoolOpOk(op) && Bounded(p.s) && Bounded(PoolStep(p, op).s)
    ensures PoolInv(PoolStep(p, op))
  {
    match op
    case ReadPage(k) => ReadStep(p, k);
    case Do(o) =>
      match o {
        case InsertRow(x, k, payload) =>
          InsertRowGoes(Ask(p, k).s, x, k, payload);
          RowStep(p, o, k);
        case DeleteRow(x, iso, l) =>
          DeleteRowGoes(Ask(p, KeyOf(l)).s, x, iso, l);
          RowStep(p, o, KeyOf(l));
        case UpdateRow(x, iso, l, k, payload) => UpdateStep(p, o);
        case Evict(k) =>
        case _ =>
          PoolDoQuiet(p, o);
          QuietDo(p, o);
      }
  }
}
