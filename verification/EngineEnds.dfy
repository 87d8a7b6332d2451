/** Begin, command, commit, rollback and the background operations keep the
    engine's invariant; hence it holds over every run. */
module EngineEnds {
  import opened Types
  import opened Locks
  import opened Visibility
  import opened Transactions
  import opened Pages
  import opened Wal
  import opened Replay
  import opened Engine
  import opened EngineInv
  import opened EngineRows
  import LockSafety

  // ---- changes of the log that concern no row -----------------------------

  // `t` is `s` with other log bookkeeping, disk image and one more non-row record at most.
  ghost predicate SameRows(s: Engine, t: Engine) {
    t == s.(wal := t.wal, disk := t.disk, dirty := t.dirty, writtenAt := t.writtenAt)
  }

  lemma NonRowPush(s: Engine, t: Engine, r: LogRec)
    requires Inv(s) && SameRows(s, t) && WalInv(t.wal) && t.wal.att == s.wal.att
    requires t.wal.log == s.wal.log + [r] && IsCheckpoint(r) && t.wal.nextLsn >= s.wal.nextLsn
    ensures Inv(t)
  {
    InsertFirstPush(s.wal.log, r);
    forall l ensures VerOk(t, l) { assert VerOk(s, l); }
    forall x, l ensures LinkOk(t, x, l) {
      assert LinkOk(s, x, l);
      ByPush(s.wal.log, r, x, l);
    }
    RowsSame(s, t);
  }

  lemma RowsSame(s: Engine, t: Engine)
    requires Inv(s) && t.cur == s.cur && t.rowOf == s.rowOf && t.chains == s.chains
    requires A(t) <= A(s) && t.locks == s.locks && t.tm.nextXid == s.tm.nextXid
    ensures RowsOk(t) && LocksOk(t)
  {
    forall l ensures RowOfOk(t, l) { assert RowOfOk(s, l); }
    forall r ensures ChainOk(t, r) {
      assert ChainOk(s, r);
      if r in s.chains {
        var c := s.chains[r];
        forall i | 0 <= i < |c| - 1 ensures Linked(t, c[i], c[i + 1]) { assert Linked(s, c[i], c[i + 1]); }
      }
    }
    forall y, l ensures LockOnRow(t, y, l) { assert LockOnRow(s, y, l); }
  }

  lemma SameLogInv(s: Engine, t: Engine)
    requires Inv(s) && SameRows(s, t) && WalInv(t.wal) && t.wal.att == s.wal.att && t.wal.log == s.wal.log
    requires t.wal.nextLsn == s.wal.nextLsn
    ensures Inv(t)
  {
    forall l ensures VerOk(t, l) { assert VerOk(s, l); }
    forall x, l ensures LinkOk(t, x, l) { assert LinkOk(s, x, l); }
    RowsSame(s, t);
  }

  lemma EvictInv(s: Engine, k: PageKey)
    requires Inv(s)
    ensures Inv(StepEvict(s, k))
  {
    if k in s.dirty && k in s.cur {
      FlushPageFacts(s.wal, k, s.cur[k].lsn);
      SameLogInv(s, StepEvict(s, k));
    }
  }

  lemma FlushInv(s: Engine)
    requires Inv(s)
    ensures Inv(Step(s, FlushLog))
  {
    FlushToFacts(s.wal, NULL_LSN);
    SameLogInv(s, Step(s, FlushLog));
  }

  lemma CheckpointInv(s: Engine)
    requires Inv(s) && Bounded(Step(s, TakeCheckpoint))
    ensures Inv(Step(s, TakeCheckpoint))
  {
    var t := Step(s, TakeCheckpoint);
    CheckpointFacts(s.wal);
    CheckpointMiddle(s);
    var mid := s.(wal := Push(s.wal, BeginCheckpointLog(s.wal.nextLsn, NULL_XID, NULL_LSN)));
    var e := EndCheckpointLog(s.wal.nextLsn + 13, NULL_XID, NULL_LSN, s.wal.att, s.wal.dpt);
    assert t.wal.log == mid.wal.log + [e];
    NonRowPush(mid, t, e);
  }

  // After the first of the two checkpoint records.
  lemma CheckpointMiddle(s: Engine)
    requires Inv(s) && Bounded(Step(s, TakeCheckpoint))
    ensures Inv(s.(wal := Push(s.wal, BeginCheckpointLog(s.wal.nextLsn, NULL_XID, NULL_LSN))))
  {
    var b := BeginCheckpointLog(s.wal.nextLsn, NULL_XID, NULL_LSN);
    var w := Push(s.wal, b);
    FlushKeepsNext(Push(w, EndCheckpointLog(w.nextLsn, NULL_XID, NULL_LSN, w.att, w.dpt)), w.nextLsn);
    PushInv(s.wal, b, s.wal.att);
    assert w == w.(att := s.wal.att);
    NonRowPush(s, s.(wal := w), b);
  }

  // ---- begin and command --------------------------------------------------

  lemma BeginInv(s: Engine)
    requires Inv(s) && Bounded(Step(s, Begin))
    ensures Inv(Step(s, Begin)) && s.tm.nextXid !in s.wal.att
  {
    var x := s.tm.nextXid;
    var t := Step(s, Begin);
    BeginTables(s);
    BeginVersions(s, BeginLog(s.wal.nextLsn, x, NULL_LSN));
    forall l ensures RowOfOk(t, l) { assert RowOfOk(s, l) && VerOk(s, l); }
    forall c ensures ChainOk(t, c) { BeginChain(s, c); }
  }

  lemma BeginTables(s: Engine)
    requires Inv(s) && Bounded(Step(s, Begin))
    ensures s.tm.nextXid !in s.wal.att && s.tm.nextXid < NULL_XID
    ensures TxOk(Step(s, Begin)) && LogXidsOk(Step(s, Begin)) && LocksOk(Step(s, Begin))
  {
    var x := s.tm.nextXid;
    var t := Step(s, Begin);
    assert x !in A(s);
    TmSteps(s.tm, x);
    AppendBeginInv(s.wal, x);
    var r := BeginLog(s.wal.nextLsn, x, NULL_LSN);
    assert t.wal.log == s.wal.log + [r];
    InsertFirstPush(s.wal.log, r);
    forall y, l ensures LockOnRow(t, y, l) { assert LockOnRow(s, y, l); }
  }

  lemma BeginVersions(s: Engine, r: LogRec)
    requires Inv(s) && s.tm.nextXid !in s.wal.att && s.tm.nextXid < NULL_XID
    requires r == BeginLog(s.wal.nextLsn, s.tm.nextXid, NULL_LSN)
    ensures VersionsOk(Step(s, Begin))
  {
    var t := Step(s, Begin);
    assert t.wal.log == s.wal.log + [r];
    forall l ensures VerOk(t, l) { assert VerOk(s, l); }
    forall y, l ensures LinkOk(t, y, l) {
      assert LinkOk(s, y, l) && VerOk(s, l);
      ByPush(s.wal.log, r, y, l);
    }
  }

  lemma BeginChain(s: Engine, r: Loc)
    requires Inv(s) && s.tm.nextXid !in s.wal.att && s.tm.nextXid < NULL_XID
    ensures ChainOk(Step(s, Begin), r)
  {
    var t := Step(s, Begin);
    assert ChainOk(s, r);
    if r in s.chains {
      var c := s.chains[r];
      forall i | 0 <= i < |c| - 1 ensures Linked(t, c[i], c[i + 1]) {
        assert Linked(s, c[i], c[i + 1]) && VerOk(s, c[i]);
      }
    }
  }

  lemma CommandInv(s: Engine, x: Xid)
    requires Inv(s)
    ensures Inv(Step(s, Command(x)))
  {
    var t := Step(s, Command(x));
    if x in s.tm.cids {
      TmSteps(s.tm, x);
      assert A(t) == A(s);
      forall l ensures VerOk(t, l) { assert VerOk(s, l); }
      forall y, l ensures LinkOk(t, y, l) { assert LinkOk(s, y, l); }
      RowsSame(s, t);
    }
  }

  // ---- commit -------------------------------------------------------------

  lemma ReleasedModes(m: LockMap, x: Xid, y: Xid, l: Loc)
    ensures y != x ==> RowMode(AfterRelease(m, x), y, l.oid, l.rid) == RowMode(m, y, l.oid, l.rid)
    ensures RowMode(AfterRelease(m, x), x, l.oid, l.rid) == None
  {
  }

  // The parts of the invariant that ending a transaction touches alike for commit and rollback.
  lemma EndCommon(s: Engine, x: Xid, commit: bool)
    requires Inv(s) && x in A(s) && s.wal.nextLsn + 13 <= NULL_LSN
    ensures var w := AppendEnd(s.wal, x, commit);
      && WalInv(w) && w.log == s.wal.log + [EndRec(s.wal, x, commit)] && InsertFirst(w.log)
      && w.att.Keys == A(s) - {x}
      && TmInv(EndTm(s.tm, x)) && Active(EndTm(s.tm, x)) == A(s) - {x}
      && AllShaped(AfterRelease(s.locks, x))
  {
    AppendEndFacts(s.wal, x, commit);
    InsertFirstPush(s.wal.log, EndRec(s.wal, x, commit));
    TmSteps(s.tm, x);
  }

  lemma CommitInv(s: Engine, x: Xid)
    requires Inv(s) && Bounded(StepCommit(s, x))
    ensures Inv(StepCommit(s, x))
  {
    if x in A(s) {
      var t := StepCommit(s, x);
      EndNextLsn(s.wal, x, true);
      EndCommon(s, x, true);
      forall y, l ensures LockOnRow(t, y, l) {
        assert LockOnRow(s, y, l);
        ReleasedModes(s.locks, x, y, l);
      }
      forall l ensures VerOk(t, l) {
        assert VerOk(s, l);
        if HasLoc(s.cur, l) { ReleasedModes(s.locks, x, At(s.cur, l).xmax, l); }
      }
      forall y, l ensures LinkOk(t, y, l) {
        assert LinkOk(s, y, l);
        ByPush(s.wal.log, EndRec(s.wal, x, true), y, l);
      }
      forall l ensures RowOfOk(t, l) { assert RowOfOk(s, l); }
      forall r ensures ChainOk(t, r) {
        assert ChainOk(s, r);
        if r in s.chains {
          var c := s.chains[r];
          forall i | 0 <= i < |c| - 1 ensures Linked(t, c[i], c[i + 1]) { assert Linked(s, c[i], c[i + 1]); }
        }
      }
    }
  }

  lemma EndNextLsn(w: Wal, x: Xid, commit: bool)
    requires x in w.att
    ensures AppendEnd(w, x, commit).nextLsn == w.nextLsn + 13
  {
  }

  // ---- rollback -----------------------------------------------------------

  /** What rollback leaves of a version: the transaction's own versions marked
      deleted by itself, its delete marks cleared, the rest untouched. */
  function RolledBack(v: Version, x: Xid): Version {
    if v.xmin == x then MarkDeleted(v, x)
    else if v.xmax == x then Unmark(v)
    else v
  }

  lemma RollbackAt(s: Engine, x: Xid, l: Loc)
    requires Inv(s) && x in A(s)
    ensures HasLoc(StepRollback(s, x).cur, l) <==> HasLoc(s.cur, l)
    ensures HasLoc(s.cur, l) ==> At(StepRollback(s, x).cur, l) == RolledBack(At(s.cur, l), x)
  {
    UndoTxAt(s.wal.log, |s.wal.log|, x, s.cur, l);
    assert LinkOk(s, x, l);
  }

  lemma RollbackVersion(s: Engine, x: Xid, l: Loc)
    requires Inv(s) && x in A(s) && Bounded(StepRollback(s, x))
    ensures VerOk(StepRollback(s, x), l)
  {
    EndNextLsn(s.wal, x, false);
    EndCommon(s, x, false);
    RollbackAt(s, x, l);
    assert VerOk(s, l);
    if HasLoc(s.cur, l) { ReleasedModes(s.locks, x, At(s.cur, l).xmax, l); }
  }

  lemma RollbackLink(s: Engine, x: Xid, y: Xid, l: Loc)
    requires Inv(s) && x in A(s) && Bounded(StepRollback(s, x))
    ensures LinkOk(StepRollback(s, x), y, l)
  {
    EndNextLsn(s.wal, x, false);
    EndCommon(s, x, false);
    RollbackAt(s, x, l);
    assert VerOk(s, l) && LinkOk(s, y, l);
    ByPush(s.wal.log, EndRec(s.wal, x, false), y, l);
  }

  // A chain is its kept part followed by the versions `x` inserted.
  ghost predicate SplitsAt(s: Engine, c: seq<Loc>, x: Xid, n: nat) {
    && n <= |c|
    && (forall i :: 0 <= i < n ==> At'(s, c[i]) != Some(x))
    && (forall i :: n <= i < |c| ==> At'(s, c[i]) == Some(x))
  }

  function At'(s: Engine, l: Loc): Option<Xid> {
    if HasLoc(s.cur, l) then Some(At(s.cur, l).xmin) else None
  }

  lemma {:induction false} StripSplits(s: Engine, c: seq<Loc>, x: Xid)
    requires x in A(s)
    requires forall i :: 0 <= i < |c| ==> HasLoc(s.cur, c[i])
    requires forall i :: 0 <= i < |c| - 1 ==> Linked(s, c[i], c[i + 1])
    ensures Strip(s.cur, c, x) <= c && SplitsAt(s, c, x, |Strip(s.cur, c, x)|)
    decreases |c|
  {
    if c == [] || At(s.cur, c[|c| - 1]).xmin != x {
      NoEarlier(s, c, x, |c|);
    } else {
      var d := c[..|c| - 1];
      forall i | 0 <= i < |d| - 1 ensures Linked(s, d[i], d[i + 1]) { assert Linked(s, c[i], c[i + 1]); }
      StripSplits(s, d, x);
    }
  }

  // If the newest of the first `n` versions is not from `x`, none is.
  lemma {:induction false} NoEarlier(s: Engine, c: seq<Loc>, x: Xid, n: nat)
    requires x in A(s) && n <= |c|
    requires forall i :: 0 <= i < |c| ==> HasLoc(s.cur, c[i])
    requires forall i :: 0 <= i < |c| - 1 ==> Linked(s, c[i], c[i + 1])
    requires n > 0 ==> At(s.cur, c[n - 1]).xmin != x
    ensures forall i :: 0 <= i < n ==> At(s.cur, c[i]).xmin != x
  {
    if n > 1 {
      assert Linked(s, c[n - 2], c[n - 2 + 1]);
      NoEarlier(s, c, x, n - 1);
    }
  }

  lemma RollbackChain(s: Engine, x: Xid, r: Loc)
    requires Inv(s) && x in A(s) && Bounded(StepRollback(s, x))
    ensures ChainOk(StepRollback(s, x), r)
  {
    var t := StepRollback(s, x);
    EndNextLsn(s.wal, x, false);
    EndCommon(s, x, false);
    assert ChainOk(s, r);
    if r in s.chains {
      var c := s.chains[r];
      StripSplits(s, c, x);
      var d := t.chains[r];
      forall i | 0 <= i < |d| ensures HasLoc(t.cur, d[i]) && d[i] in t.rowOf && t.rowOf[d[i]] == r {
        assert d[i] == c[i];
        RollbackAt(s, x, d[i]);
      }
      forall i | 0 <= i < |d| - 1 ensures Linked(t, d[i], d[i + 1]) {
        assert d[i] == c[i] && d[i + 1] == c[i + 1];
        assert Linked(s, c[i], c[i + 1]);
        RollbackAt(s, x, d[i]);
        RollbackAt(s, x, d[i + 1]);
        assert At'(s, c[i]) != Some(x) && At'(s, c[i + 1]) != Some(x);
      }
      forall i, j | 0 <= i < j < |d| ensures d[i] != d[j] {
        assert c[i] != c[j];
      }
    }
  }

  lemma RollbackRowOf(s: Engine, x: Xid, l: Loc)
    requires Inv(s) && x in A(s) && Bounded(StepRollback(s, x))
    ensures RowOfOk(StepRollback(s, x), l)
  {
    var t := StepRollback(s, x);
    EndNextLsn(s.wal, x, false);
    EndCommon(s, x, false);
    RollbackAt(s, x, l);
    assert RowOfOk(s, l) && VerOk(s, l);
    if l in s.rowOf {
      var c := s.chains[s.rowOf[l]];
      assert ChainOk(s, s.rowOf[l]);
      StripSplits(s, c, x);
      var d := t.chains[s.rowOf[l]];
      if l in c {
        var i :| 0 <= i < |c| && c[i] == l;
        if i < |d| { assert d[i] == l; } else { assert At'(s, c[i]) == Some(x); }
      }
    }
  }

  lemma RollbackInv(s: Engine, x: Xid)
    requires Inv(s) && Bounded(StepRollback(s, x))
    ensures Inv(StepRollback(s, x))
  {
    if x in A(s) {
      var t := StepRollback(s, x);
      EndNextLsn(s.wal, x, false);
      EndCommon(s, x, false);
      UndoTxShape(s.wal.log, |s.wal.log|, x, s.cur);
      forall i | 0 <= i < |t.wal.log| && IsRowRec(t.wal.log[i]) ensures HasLoc(t.cur, LocOfRec(t.wal.log[i])) {
        assert t.wal.log[i] == s.wal.log[i];
        RollbackAt(s, x, LocOfRec(s.wal.log[i]));
      }
      forall y, l ensures LockOnRow(t, y, l) {
        assert LockOnRow(s, y, l);
        ReleasedModes(s.locks, x, y, l);
        RollbackAt(s, x, l);
      }
      forall l ensures VerOk(t, l) { RollbackVersion(s, x, l); }
      forall y, l ensures LinkOk(t, y, l) { RollbackLink(s, x, y, l); }
      forall l ensures RowOfOk(t, l) { RollbackRowOf(s, x, l); }
      forall r ensures ChainOk(t, r) { RollbackChain(s, x, r); }
    }
  }

  // ---- runs ---------------------------------------------------------------

  /** Writers run at READ COMMITTED or SERIALIZABLE. */
  predicate WriterOk(op: Op) {
    match op
    case DeleteRow(_, iso, _) => iso != REPEATABLE_READ
    case UpdateRow(_, iso, _, _, _) => iso != REPEATABLE_READ
    case _ => true
  }

  ghost predicate WritersOk(ops: seq<Op>) {
    forall i :: 0 <= i < |ops| ==> WriterOk(ops[i])
  }

  lemma StepInv(s: Engine, op: Op)
    requires Inv(s) && WriterOk(op) && Bounded(Step(s, op))
    ensures Inv(Step(s, op))
  {
    match op
    case Begin => BeginInv(s);
    case Command(x) => CommandInv(s, x);
    case LockTableStmt(x, m, oid) => if TableRequest(m) { TableReqInv(s, x, m, oid); }
    case LockRowStmt(x, m, l) => if RowRequest(m) && HasLoc(s.cur, l) { RowReqInv(s, x, m, l); }
    case InsertRow(x, k, payload) => StepInsertInv(s, x, k, payload);
    case DeleteRow(x, iso, l) => StepDeleteInv(s, x, iso, l);
    case UpdateRow(x, iso, l, k, payload) => StepUpdateInv(s, x, iso, l, k, payload);
    case Commit(x) => CommitInv(s, x);
    case Rollback(x) => RollbackInv(s, x);
    case Evict(k) => EvictInv(s, k);
    case FlushLog => FlushInv(s);
    case TakeCheckpoint => CheckpointInv(s);
  }

  // Ids and LSNs only grow.
  predicate Grows(s: Engine, t: Engine) {
    s.tm.nextXid <= t.tm.nextXid && s.wal.nextLsn <= t.wal.nextLsn
  }

  lemma DeleteGrows(s: Engine, x: Xid, l: Loc)
    requires x in s.wal.att && HasLoc(s.cur, l)
    ensures Grows(s, DoDelete(s, x, l))
  {
  }

  lemma InsertGrows(s: Engine, x: Xid, k: PageKey, payload: seq<byte>, row: Loc)
    requires x in s.wal.att && x in s.cmd && Fits(s, k, payload)
    ensures Grows(s, DoInsert(s, x, k, payload, row))
  {
  }

  lemma UpdateGrows(s: Engine, x: Xid, iso: Isolation, l: Loc, k: PageKey, payload: seq<byte>)
    ensures Grows(s, StepUpdate(s, x, iso, l, k, payload))
  {
    if Running(s, x) && HasLoc(s.cur, l) && k.oid == l.oid && Fits(s, k, payload) && l in s.rowOf {
      var (s1, go) := ScanAndLock(s, x, iso, l);
      if go {
        UsedSame(s.cur, l, x, k, s.wal.nextLsn);
        DeleteGrows(s1, x, l);
        InsertGrows(DoDelete(s1, x, l), x, k, payload, s.rowOf[l]);
      }
    }
  }

  lemma InsertStepGrows(s: Engine, x: Xid, k: PageKey, payload: seq<byte>)
    ensures Grows(s, StepInsert(s, x, k, payload))
  {
    if Running(s, x) && Fits(s, k, payload) && LockTableOk(s.locks, x, IX, k.oid) {
      InsertGrows(WithLocks(s, AfterLockTable(s.locks, x, IX, k.oid)), x, k, payload, NextLoc(s.cur, k));
    }
  }

  lemma DeleteStepGrows(s: Engine, x: Xid, iso: Isolation, l: Loc)
    ensures Grows(s, StepDelete(s, x, iso, l))
  {
    if Running(s, x) && HasLoc(s.cur, l) && ScanAndLock(s, x, iso, l).1 {
      DeleteGrows(ScanAndLock(s, x, iso, l).0, x, l);
    }
  }

  lemma EndGrows(s: Engine, x: Xid)
    ensures Grows(s, StepCommit(s, x)) && Grows(s, StepRollback(s, x))
  {
    if x in s.wal.att {
      EndNextLsn(s.wal, x, true);
      EndNextLsn(s.wal, x, false);
    }
  }

  lemma StepGrows(s: Engine, op: Op)
    ensures Grows(s, Step(s, op))
  {
    match op {
      case Begin =>
      case Command(x) =>
      case LockTableStmt(x, m, oid) =>
      case LockRowStmt(x, m, l) =>
      case InsertRow(x, k, payload) => InsertStepGrows(s, x, k, payload);
      case DeleteRow(x, iso, l) => DeleteStepGrows(s, x, iso, l);
      case UpdateRow(x, iso, l, k, payload) => UpdateGrows(s, x, iso, l, k, payload);
      case Commit(x) => EndGrows(s, x);
      case Rollback(x) => EndGrows(s, x);
      case Evict(k) =>
      case FlushLog =>
      case TakeCheckpoint =>
    }
  }

  lemma {:induction false} RunGrows(s: Engine, ops: seq<Op>)
    ensures Grows(s, Run(s, ops))
    decreases |ops|
  {
    if ops != [] {
      StepGrows(s, ops[0]);
      RunGrows(Step(s, ops[0]), ops[1..]);
    }
  }

  /** Every state of every run whose writers are at READ COMMITTED or
      SERIALIZABLE satisfies the invariant. */
  lemma {:induction false} RunInv(s: Engine, ops: seq<Op>)
    requires Inv(s) && WritersOk(ops) && Bounded(Run(s, ops))
    ensures Inv(Run(s, ops))
    decreases |ops|
  {
    if ops != [] {
      RunGrows(Step(s, ops[0]), ops[1..]);
      assert WriterOk(ops[0]);
      StepInv(s, ops[0]);
      RunInv(Step(s, ops[0]), ops[1..]);
    }
  }

  lemma InitInv(s: Engine)
    requires Init(s)
    ensures Inv(s)
  {
    var b :| CleanWal(s.wal, b);
    var log := s.wal.log;
    assert AttOf(log, 0) == AttOf(log, 1) == AttOf(log, 2) == map[];
    forall l ensures VerOk(s, l) {}
    forall x, l ensures LinkOk(s, x, l) {}
    forall l ensures RowOfOk(s, l) {}
    forall r ensures ChainOk(s, r) {}
  }
}
