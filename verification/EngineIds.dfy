/** Transaction ids in the log of any run, rollbacks included: they are handed
    out in order, and a transaction logs nothing before its begin record. */
module EngineIds {
  import opened Types
  import opened Locks
  import opened Visibility
  import opened Transactions
  import opened Pages
  import opened Wal
  import opened Replay
  import opened Engine
  import opened EngineInv
  import opened EngineRows
  import opened EngineEnds
  import opened EngineDisk
  import opened EngineHistory
  import opened CrashRecovery

  // A begin record has a new id; any other record is of a transaction that began.
  ghost predicate IdOk(first: Xid, log: seq<LogRec>, i: nat)
    requires i < |log|
  {
    if log[i].BeginLog? then first <= log[i].xid < NULL_XID
    else IsCheckpoint(log[i]) || BeginAt(log, i, log[i].xid)
  }

  ghost predicate IdsOk(first: Xid, log: seq<LogRec>) {
    forall i :: 0 <= i < |log| ==> IdOk(first, log, i)
  }

  ghost predicate IdInv(s: Engine, first: Xid) {
    && IdsOk(first, s.wal.log) && first <= s.tm.nextXid
    && BeginsInOrder(first, s.wal.log, s.tm.nextXid)
  }

  lemma BeginSame(a: seq<LogRec>, b: seq<LogRec>, n: nat, x: Xid)
    requires n <= |a| && n <= |b| && a[..n] == b[..n] && BeginAt(a, n, x)
    ensures BeginAt(b, n, x)
  {
    var i :| 0 <= i < n && a[i].BeginLog? && a[i].xid == x;
    assert b[i] == b[..n][i] == a[..n][i];
  }

  lemma IdsPrefix(first: Xid, log: seq<LogRec>, n: nat)
    requires IdsOk(first, log) && n <= |log|
    ensures IdsOk(first, log[..n])
  {
    forall i | 0 <= i < n ensures IdOk(first, log[..n], i) {
      assert IdOk(first, log, i) && log[..n][..i] == log[..i];
      if !log[i].BeginLog? && !IsCheckpoint(log[i]) { BeginSame(log, log[..n], i, log[i].xid); }
    }
  }

  // A transaction in the table has begun.
  lemma {:induction false} AttBegan(first: Xid, log: seq<LogRec>, n: nat, x: Xid)
    requires IdsOk(first, log) && n <= |log| && x in AttOf(log, n)
    ensures BeginAt(log, n, x)
  {
    assert IdOk(first, log, n - 1);
    if !OfXid(log[n - 1], x) {
      AttBegan(first, log, n - 1, x);
    } else if log[n - 1].BeginLog? {
      assert log[n - 1].xid == x;
    }
  }

  lemma IdPushed(s: Engine, t: Engine, r: LogRec, first: Xid)
    requires IdInv(s, first) && t.wal.log == s.wal.log + [r]
    requires if r.BeginLog? then r.xid == s.tm.nextXid < NULL_XID && t.tm.nextXid == s.tm.nextXid + 1
             else t.tm.nextXid == s.tm.nextXid && (IsCheckpoint(r) || BeginAt(s.wal.log, |s.wal.log|, r.xid))
    ensures IdInv(t, first)
  {
    var a, log := t.wal.log, s.wal.log;
    BeginsPush(first, log, r, s.tm.nextXid, t.tm.nextXid);
    forall i | 0 <= i < |a| ensures IdOk(first, a, i) {
      assert a[..i] == log[..i];
      if i < |log| { assert IdOk(first, log, i); }
      if !a[i].BeginLog? && !IsCheckpoint(a[i]) { BeginSame(log, a, i, a[i].xid); }
    }
  }

  lemma IdSame(s: Engine, t: Engine, first: Xid)
    requires IdInv(s, first) && t.wal.log == s.wal.log && t.tm.nextXid == s.tm.nextXid
    ensures IdInv(t, first)
  {
  }

  lemma InsertIds(s: Engine, x: Xid, k: PageKey, payload: seq<byte>, row: Loc, first: Xid)
    requires IdInv(s, first) && x in s.wal.att && x in s.cmd && Fits(s, k, payload) && BeginAt(s.wal.log, |s.wal.log|, x)
    ensures IdInv(DoInsert(s, x, k, payload, row), first)
  {
    InsertPushed(s, x, k, payload, row);
    IdPushed(s, DoInsert(s, x, k, payload, row), InsertRec(s, x, k, payload), first);
  }

  lemma DeleteIds(s: Engine, x: Xid, l: Loc, first: Xid)
    requires IdInv(s, first) && x in s.wal.att && HasLoc(s.cur, l) && BeginAt(s.wal.log, |s.wal.log|, x)
    ensures var t := DoDelete(s, x, l); IdInv(t, first) && BeginAt(t.wal.log, |t.wal.log|, x)
  {
    DeletePushed(s, x, l);
    IdPushed(s, DoDelete(s, x, l), DeleteRec(s, x, l), first);
    var t := DoDelete(s, x, l);
    var i :| 0 <= i < |s.wal.log| && s.wal.log[i].BeginLog? && s.wal.log[i].xid == x;
    assert t.wal.log[i] == s.wal.log[i];
  }

  lemma InsertStepIds(s: Engine, x: Xid, k: PageKey, payload: seq<byte>, first: Xid)
    requires WalInv(s.wal) && IdInv(s, first)
    ensures IdInv(StepInsert(s, x, k, payload), first)
  {
    if Running(s, x) && Fits(s, k, payload) && LockTableOk(s.locks, x, IX, k.oid) {
      AttBegan(first, s.wal.log, |s.wal.log|, x);
      var s1 := WithLocks(s, AfterLockTable(s.locks, x, IX, k.oid));
      InsertIds(s1, x, k, payload, NextLoc(s.cur, k), first);
      IdSame(DoInsert(s1, x, k, payload, NextLoc(s.cur, k)), StepInsert(s, x, k, payload), first);
    }
  }

  lemma DeleteStepIds(s: Engine, x: Xid, iso: Isolation, l: Loc, first: Xid)
    requires WalInv(s.wal) && IdInv(s, first)
    ensures IdInv(StepDelete(s, x, iso, l), first)
  {
    if Running(s, x) && HasLoc(s.cur, l) && ScanAndLock(s, x, iso, l).1 {
      AttBegan(first, s.wal.log, |s.wal.log|, x);
      DeleteIds(ScanAndLock(s, x, iso, l).0, x, l, first);
    }
  }

  lemma UpdateIds(s: Engine, x: Xid, l: Loc, k: PageKey, payload: seq<byte>, row: Loc, first: Xid)
    requires IdInv(s, first) && x in s.wal.att && x in s.cmd && HasLoc(s.cur, l) && BeginAt(s.wal.log, |s.wal.log|, x)
    requires Fits(DoDelete(s, x, l), k, payload)
    ensures IdInv(DoInsert(DoDelete(s, x, l), x, k, payload, row), first)
  {
    DeleteIds(s, x, l, first);
    InsertIds(DoDelete(s, x, l), x, k, payload, row, first);
  }

  lemma UpdateStepIds(s: Engine, x: Xid, iso: Isolation, l: Loc, k: PageKey, payload: seq<byte>, first: Xid)
    requires WalInv(s.wal) && IdInv(s, first)
    ensures IdInv(StepUpdate(s, x, iso, l, k, payload), first)
  {
    if Running(s, x) && HasLoc(s.cur, l) && k.oid == l.oid && Fits(s, k, payload) && l in s.rowOf {
      var (s1, go) := ScanAndLock(s, x, iso, l);
      if go {
        AttBegan(first, s.wal.log, |s.wal.log|, x);
        UsedSame(s.cur, l, x, k, s.wal.nextLsn);
        UpdateIds(s1, x, l, k, payload, s.rowOf[l], first);
        IdSame(DoInsert(DoDelete(s1, x, l), x, k, payload, s.rowOf[l]), StepUpdate(s, x, iso, l, k, payload), first);
      } else {
        IdSame(s, StepUpdate(s, x, iso, l, k, payload), first);
      }
    }
  }

  lemma EndIds(s: Engine, x: Xid, commit: bool, first: Xid)
    requires WalInv(s.wal) && IdInv(s, first)
    ensures IdInv(if commit then StepCommit(s, x) else StepRollback(s, x), first)
  {
    if x in s.tm.cids && x in s.tm.snaps && x in s.wal.att {
      AttBegan(first, s.wal.log, |s.wal.log|, x);
      var r := EndRec(s.wal, x, commit);
      assert AppendEnd(s.wal, x, commit).log == s.wal.log + [r];
      IdPushed(s, if commit then StepCommit(s, x) else StepRollback(s, x), r, first);
    }
  }

  lemma CheckpointIds(s: Engine, first: Xid)
    requires WalInv(s.wal) && IdInv(s, first) && Checkpoint(s.wal).nextLsn <= NULL_LSN
    ensures IdInv(s.(wal := Checkpoint(s.wal)), first)
  {
    var b := BeginCheckpointLog(s.wal.nextLsn, NULL_XID, NULL_LSN);
    var e := EndCheckpointLog(s.wal.nextLsn + 13, NULL_XID, NULL_LSN, s.wal.att, s.wal.dpt);
    CheckpointLogIs(s.wal);
    var mid := s.(wal := s.wal.(log := s.wal.log + [b]));
    IdPushed(s, mid, b, first);
    IdPushed(mid, s.(wal := Checkpoint(s.wal)), e, first);
  }

  lemma EvictIds(s: Engine, k: PageKey, first: Xid)
    requires WalInv(s.wal) && IdInv(s, first)
    ensures IdInv(StepEvict(s, k), first)
  {
    if k in s.dirty && k in s.cur { FlushToFacts(s.wal, s.cur[k].lsn); }
  }

  lemma StepIds(s: Engine, op: Op, first: Xid)
    requires WalInv(s.wal) && IdInv(s, first) && Bounded(Step(s, op))
    ensures IdInv(Step(s, op), first)
  {
    match op
    case Begin =>
      if s.tm.nextXid !in s.wal.att {
        IdPushed(s, Step(s, Begin), BeginLog(s.wal.nextLsn, s.tm.nextXid, NULL_LSN), first);
      }
    case Command(x) =>
    case LockTableStmt(x, m, oid) =>
    case LockRowStmt(x, m, l) =>
    case InsertRow(x, k, payload) => InsertStepIds(s, x, k, payload, first);
    case DeleteRow(x, iso, l) => DeleteStepIds(s, x, iso, l, first);
    case UpdateRow(x, iso, l, k, payload) => UpdateStepIds(s, x, iso, l, k, payload, first);
    case Commit(x) => EndIds(s, x, true, first);
    case Rollback(x) => EndIds(s, x, false, first);
    case Evict(k) => EvictIds(s, k, first);
    case FlushLog => FlushToFacts(s.wal, NULL_LSN);
    case TakeCheckpoint =>
      CheckpointFits(s);
      CheckpointIds(s, first);
  }

  lemma InitIds(s: Engine)
    requires Init(s)
    ensures IdInv(s, s.tm.nextXid)
  {
    var b :| CleanWal(s.wal, b);
  }

  /** Over every run ids are handed out in order, and whoever logs has begun. */
  lemma {:induction false} RunIds(s: Engine, ops: seq<Op>, first: Xid)
    requires Inv(s) && IdInv(s, first) && WritersOk(ops) && Bounded(Run(s, ops))
    ensures IdInv(Run(s, ops), first)
    decreases |ops|
  {
    if ops != [] {
      RunGrows(Step(s, ops[0]), ops[1..]);
      assert WriterOk(ops[0]);
      StepInv(s, ops[0]);
      StepIds(s, ops[0], first);
      RunIds(Step(s, ops[0]), ops[1..], first);
    }
  }
}
