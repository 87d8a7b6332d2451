/** What the isolation levels promise, over every interleaving. */
module IsolationTheorems {
  import opened Types
  import opened Locks
  import opened Visibility
  import opened Transactions
  import opened Pages
  import opened Wal
  import opened Replay
  import opened Engine
  import opened EngineInv
  import opened EngineRows
  import opened EngineEnds
  import LockSafety

  // ---- how one step changes a version -------------------------------------

  /** A version's identity never changes; its deleter is set once by a live
      writer that may see it, and cleared only when that deleter rolls back. */
  predicate Evolves(s: Engine, op: Op, v: Version, w: Version) {
    && w.xmin == v.xmin && w.cid == v.cid && w.payload == v.payload
    && (w.xmax == v.xmax
        || (v.xmax == NULL_XID && w.xmax in A(s) && Writes(op, w.xmax))
        || (v.xmax in A(s) && op == Rollback(v.xmax) && w.xmax == NULL_XID)
        || (v.xmin in A(s) && op == Rollback(v.xmin) && w.xmax == v.xmin))
  }

  predicate Writes(op: Op, x: Xid) {
    match op
    case InsertRow(y, _, _) => x == y
    case DeleteRow(y, _, _) => x == y
    case UpdateRow(y, _, _, _, _) => x == y
    case _ => false
  }

  // A version that appears in a step was inserted by a live writer.
  predicate Appears(s: Engine, op: Op, w: Version) {
    w.xmin in A(s) && w.xmax == NULL_XID && Writes(op, w.xmin)
  }

  predicate EvolvesAt(s: Engine, op: Op, t: Engine, l: Loc) {
    && (HasLoc(s.cur, l) ==> HasLoc(t.cur, l) && Evolves(s, op, At(s.cur, l), At(t.cur, l)))
    && (!HasLoc(s.cur, l) && HasLoc(t.cur, l) ==> Appears(s, op, At(t.cur, l)))
  }

  lemma InsertStepEvolves(s: Engine, x: Xid, k: PageKey, payload: seq<byte>, l: Loc)
    requires Inv(s)
    ensures EvolvesAt(s, InsertRow(x, k, payload), StepInsert(s, x, k, payload), l)
  {
    if Running(s, x) && Fits(s, k, payload) && LockTableOk(s.locks, x, IX, k.oid) {
      InsertAt(WithLocks(s, AfterLockTable(s.locks, x, IX, k.oid)), x, k, payload, NextLoc(s.cur, k), l);
    }
  }

  // The part of FirstWriter the proofs below need.
  lemma WriterFinds(s: Engine, x: Xid, iso: Isolation, l: Loc)
    requires Inv(s) && Running(s, x) && HasLoc(s.cur, l) && iso != REPEATABLE_READ && ScanAndLock(s, x, iso, l).1
    ensures At(s.cur, l).xmax == NULL_XID && x in A(s)
    ensures var s1 := ScanAndLock(s, x, iso, l).0; s1 == s.(locks := s1.locks)
  {
    FirstWriter(s, x, iso, l);
  }

  lemma DeleteChanges(s: Engine, s1: Engine, x: Xid, op: Op, m: Loc, l: Loc)
    requires s1 == s.(locks := s1.locks) && x in s.wal.att && HasLoc(s.cur, m)
    requires At(s.cur, m).xmax == NULL_XID && x in A(s) && Writes(op, x)
    ensures EvolvesAt(s, op, DoDelete(s1, x, m), l)
  {
    DeleteAt(s1, x, m, l);
  }

  lemma DeleteStepEvolves(s: Engine, x: Xid, iso: Isolation, m: Loc, l: Loc)
    requires Inv(s) && iso != REPEATABLE_READ
    ensures EvolvesAt(s, DeleteRow(x, iso, m), StepDelete(s, x, iso, m), l)
  {
    if Running(s, x) && HasLoc(s.cur, m) && ScanAndLock(s, x, iso, m).1 {
      WriterFinds(s, x, iso, m);
      DeleteChanges(s, ScanAndLock(s, x, iso, m).0, x, DeleteRow(x, iso, m), m, l);
    }
  }

  lemma InsertChanges(s: Engine, s1: Engine, x: Xid, op: Op, k: PageKey, payload: seq<byte>, row: Loc, l: Loc)
    requires x in s1.wal.att && x in s1.cmd && Fits(s1, k, payload) && x in A(s) && Writes(op, x)
    requires EvolvesAt(s, op, s1, l)
    ensures EvolvesAt(s, op, DoInsert(s1, x, k, payload, row), l)
  {
    InsertAt(s1, x, k, payload, row, l);
  }

  lemma UpdateChanges(s: Engine, s1: Engine, x: Xid, iso: Isolation, m: Loc, k: PageKey, payload: seq<byte>, row: Loc, l: Loc)
    requires s1 == s.(locks := s1.locks) && x in s.wal.att && x in s.cmd && HasLoc(s.cur, m)
    requires At(s.cur, m).xmax == NULL_XID && x in A(s) && Fits(DoDelete(s1, x, m), k, payload)
    ensures EvolvesAt(s, UpdateRow(x, iso, m, k, payload), DoInsert(DoDelete(s1, x, m), x, k, payload, row), l)
  {
    DeleteChanges(s, s1, x, UpdateRow(x, iso, m, k, payload), m, l);
    InsertChanges(s, DoDelete(s1, x, m), x, UpdateRow(x, iso, m, k, payload), k, payload, row, l);
  }

  lemma UpdateStepEvolves(s: Engine, x: Xid, iso: Isolation, m: Loc, k: PageKey, payload: seq<byte>, l: Loc)
    requires Inv(s) && iso != REPEATABLE_READ
    ensures EvolvesAt(s, UpdateRow(x, iso, m, k, payload), StepUpdate(s, x, iso, m, k, payload), l)
  {
    if Running(s, x) && HasLoc(s.cur, m) && k.oid == m.oid && Fits(s, k, payload) && m in s.rowOf {
      var s1 := ScanAndLock(s, x, iso, m).0;
      if ScanAndLock(s, x, iso, m).1 {
        WriterFinds(s, x, iso, m);
        UsedSame(s.cur, m, x, k, s.wal.nextLsn);
        UpdateChanges(s, s1, x, iso, m, k, payload, s.rowOf[m], l);
      }
    }
  }

  lemma RollbackStepEvolves(s: Engine, x: Xid, l: Loc)
    requires Inv(s)
    ensures EvolvesAt(s, Rollback(x), StepRollback(s, x), l)
  {
    if x in A(s) {
      RollbackAt(s, x, l);
    }
  }

  lemma StepEvolves(s: Engine, op: Op, l: Loc)
    requires Inv(s) && WriterOk(op)
    ensures EvolvesAt(s, op, Step(s, op), l)
  {
    match op {
      case InsertRow(x, k, payload) => InsertStepEvolves(s, x, k, payload, l);
      case DeleteRow(x, iso, m) => DeleteStepEvolves(s, x, iso, m, l);
      case UpdateRow(x, iso, m, k, payload) => UpdateStepEvolves(s, x, iso, m, k, payload, l);
      case Rollback(x) => RollbackStepEvolves(s, x, l);
      case Commit(x) =>
      case Begin =>
      case Command(x) =>
      case LockTableStmt(x, m, oid) =>
      case LockRowStmt(x, m, k) =>
      case Evict(k) =>
      case FlushLog =>
      case TakeCheckpoint =>
    }
  }

  lemma InsertKeepsTm(s: Engine, x: Xid, k: PageKey, payload: seq<byte>)
    ensures StepInsert(s, x, k, payload).tm == s.tm
  {
  }

  lemma ScanKeepsTm(s: Engine, x: Xid, iso: Isolation, l: Loc)
    requires Running(s, x) && HasLoc(s.cur, l)
    ensures ScanAndLock(s, x, iso, l).0.tm == s.tm
  {
  }

  lemma DeleteKeepsTm(s: Engine, x: Xid, iso: Isolation, l: Loc)
    ensures StepDelete(s, x, iso, l).tm == s.tm
  {
    if Running(s, x) && HasLoc(s.cur, l) { ScanKeepsTm(s, x, iso, l); }
  }

  lemma UpdateKeepsTm(s: Engine, x: Xid, iso: Isolation, l: Loc, k: PageKey, payload: seq<byte>)
    ensures StepUpdate(s, x, iso, l, k, payload).tm == s.tm
  {
    if Running(s, x) && HasLoc(s.cur, l) && k.oid == l.oid && Fits(s, k, payload) && l in s.rowOf {
      ScanKeepsTm(s, x, iso, l);
      var (s1, go) := ScanAndLock(s, x, iso, l);
      if go {
        UsedSame(s.cur, l, x, k, s.wal.nextLsn);
        var s2 := DoDelete(s1, x, l);
        var s3 := DoInsert(s2, x, k, payload, s.rowOf[l]);
        assert StepUpdate(s, x, iso, l, k, payload) == LockNew(s3, x, NextLoc(s2.cur, k));
      }
    }
  }

  // The transaction tables after each kind of step.
  lemma TmOfStep(s: Engine, op: Op)
    ensures Step(s, op).tm ==
      (match op
       case Begin => if s.tm.nextXid in s.wal.att then s.tm else BeginTm(s.tm)
       case Command(x) => if x in s.tm.cids then NextCommand(s.tm, x) else s.tm
       case Commit(x) => if x in s.tm.cids && x in s.tm.snaps && x in s.wal.att then EndTm(s.tm, x) else s.tm
       case Rollback(x) => if x in s.tm.cids && x in s.tm.snaps && x in s.wal.att then EndTm(s.tm, x) else s.tm
       case _ => s.tm)
  {
    match op {
      case InsertRow(x, k, payload) => InsertKeepsTm(s, x, k, payload);
      case DeleteRow(x, iso, l) => DeleteKeepsTm(s, x, iso, l);
      case UpdateRow(x, iso, l, k, payload) => UpdateKeepsTm(s, x, iso, l, k, payload);
      case Begin =>
      case Command(x) =>
      case LockTableStmt(x, m, oid) =>
      case LockRowStmt(x, m, l) =>
      case Commit(x) =>
      case Rollback(x) =>
      case Evict(k) =>
      case FlushLog =>
      case TakeCheckpoint =>
    }
  }

  // Finished transactions stay finished; new ones get new ids.
  lemma StepActive(s: Engine, op: Op)
    requires TmInv(s.tm)
    ensures A(Step(s, op)) <= A(s) + {s.tm.nextXid}
    ensures forall x :: x in A(s) && op != Commit(x) && op != Rollback(x) ==>
      x in A(Step(s, op)) && x in Step(s, op).tm.snaps && Step(s, op).tm.snaps[x] == s.tm.snaps[x]
  {
    TmOfStep(s, op);
  }

  // ---- first writer wins --------------------------------------------------

  /** In every interleaving of READ COMMITTED and SERIALIZABLE writers, a
      delete or update that reaches Table::DeleteRecord finds a version nobody
      has deleted, inserted by itself or by a finished transaction. */
  lemma FirstWriterWins(s0: Engine, ops: seq<Op>, x: Xid, iso: Isolation, l: Loc)
    requires Init(s0) && WritersOk(ops) && Bounded(Run(s0, ops)) && iso != REPEATABLE_READ
    requires var s := Run(s0, ops); Running(s, x) && HasLoc(s.cur, l) && ScanAndLock(s, x, iso, l).1
    ensures At(Run(s0, ops).cur, l).xmax == NULL_XID
    ensures Sees(x, A(Run(s0, ops)), At(Run(s0, ops).cur, l).xmin)
  {
    InitInv(s0);
    RunInv(s0, ops);
    FirstWriter(Run(s0, ops), x, iso, l);
  }

  /** A deletion by a finished transaction is never overwritten or undone:
      the version keeps its header and payload through every later run. */
  lemma {:induction false} FinishedDeletionStays(s: Engine, ops: seq<Op>, l: Loc)
    requires Inv(s) && WritersOk(ops) && Bounded(Run(s, ops))
    requires HasLoc(s.cur, l) && At(s.cur, l).xmax != NULL_XID && At(s.cur, l).xmax !in A(s)
    ensures HasLoc(Run(s, ops).cur, l)
    ensures var v, w := At(s.cur, l), At(Run(s, ops).cur, l);
      w.xmin == v.xmin && w.xmax == v.xmax && w.cid == v.cid && w.payload == v.payload
    decreases |ops|
  {
    if ops != [] {
      var t := Step(s, ops[0]);
      RunGrows(t, ops[1..]);
      assert WriterOk(ops[0]) && VerOk(s, l);
      StepInv(s, ops[0]);
      StepEvolves(s, ops[0], l);
      StepActive(s, ops[0]);
      FinishedDeletionStays(t, ops[1..], l);
    }
  }

  /** A writer that has changed the table never fails afterwards: the lock on
      the row it has just inserted is always granted. */
  lemma NewRowLockGranted(s: Engine, x: Xid, l: Loc)
    requires Inv(s) && !HasLoc(s.cur, l)
    requires TableMode(s.locks, x, l.oid).Some? && Leq(IX, TableMode(s.locks, x, l.oid).value)
    requires forall y :: y in s.locks && y != x ==> TableOk(s.locks[y], l.oid, TableMode(s.locks, x, l.oid).value)
    ensures LockRowOk(s.locks, x, X, l.oid, l.rid)
  {
    forall y | y in s.locks && y != x ensures RowOk(s.locks[y], l.oid, l.rid, Joined(RowMode(s.locks, x, l.oid, l.rid), X)) {
      assert LockOnRow(s, y, l);
      RowModeNone(s.locks[y], |s.locks[y]|, l.oid, l.rid);
    }
  }

  lemma InsertNeverFailsLate(s: Engine, x: Xid, k: PageKey, payload: seq<byte>)
    requires Inv(s) && Running(s, x) && Fits(s, k, payload) && LockTableOk(s.locks, x, IX, k.oid)
    ensures var l := NextLoc(s.cur, k);
      LockRowOk(AfterLockTable(s.locks, x, IX, k.oid), x, X, l.oid, l.rid)
  {
    var m := AfterLockTable(s.locks, x, IX, k.oid);
    var l := NextLoc(s.cur, k);
    TableReqInv(s, x, IX, k.oid);
    LockSafety.TableReqModes(s.locks, x, IX, k.oid, x, k.oid, l.rid);
    InsertAt(s, x, k, payload, l, l);
    NewRowLockGranted(WithLocks(s, m), x, l);
  }

  lemma UpdateNeverFailsLate(s: Engine, x: Xid, iso: Isolation, l: Loc, k: PageKey, payload: seq<byte>)
    requires Inv(s) && Running(s, x) && HasLoc(s.cur, l) && Fits(s, k, payload) && k.oid == l.oid
    requires ScanAndLock(s, x, iso, l).1
    ensures LockRowOk(ScanAndLock(s, x, iso, l).0.locks, x, X, k.oid, NextLoc(s.cur, k).rid)
  {
    var s1 := ScanAndLock(s, x, iso, l).0;
    ScanAndLockInv(s, x, iso, l);
    ScanLocksTable(s, x, l);
    InsertAt(s, x, k, payload, l, l);
    NewRowLockGranted(s1, x, NextLoc(s.cur, k));
  }

  // A granted row lock leaves a table lock that suits everyone else.
  lemma ScanLocksTable(s: Engine, x: Xid, l: Loc)
    requires LocksOk(s) && HasLoc(s.cur, l)
    requires LockRowOk(AfterLockTable(s.locks, x, IS, l.oid), x, X, l.oid, l.rid)
    ensures var m := AfterLockRow(AfterLockTable(s.locks, x, IS, l.oid), x, X, l.oid, l.rid);
      && TableMode(m, x, l.oid).Some? && Leq(IX, TableMode(m, x, l.oid).value)
      && (forall y :: y in m && y != x ==> TableOk(m[y], l.oid, TableMode(m, x, l.oid).value))
  {
    var m1 := AfterLockTable(s.locks, x, IS, l.oid);
    TableReqGrew(s, x, IS, l.oid);
    LockSafety.RowReqModes(m1, x, X, l.oid, l.rid, x, l.oid, l.rid);
  }

  // ---- repeatable read is a snapshot --------------------------------------

  predicate SeenInSnapshot(s: Engine, r: Xid, snap: set<Xid>, l: Loc) {
    HasLoc(s.cur, l) && InSnapshot(r, snap, At(s.cur, l).xmin) && !InSnapshot(r, snap, At(s.cur, l).xmax)
  }

  // Reader `r` is still running with its snapshot and has written nothing.
  ghost predicate Reading(s: Engine, r: Xid, snap: set<Xid>) {
    && r in A(s) && r in s.tm.snaps && s.tm.snaps[r] == snap && r !in snap && r < NULL_XID
    && (forall y :: y in A(s) && y != r ==> !InSnapshot(r, snap, y))
    && (forall l :: HasLoc(s.cur, l) ==> At(s.cur, l).xmin != r && At(s.cur, l).xmax != r)
  }

  // The reader only reads and does not end.
  predicate LeavesReader(op: Op, r: Xid) {
    !Writes(op, r) && op != Commit(r) && op != Rollback(r)
  }

  lemma SnapshotStep(s: Engine, op: Op, r: Xid, snap: set<Xid>, l: Loc)
    requires Inv(s) && WriterOk(op) && Reading(s, r, snap) && LeavesReader(op, r)
    ensures SeenInSnapshot(Step(s, op), r, snap, l) <==> SeenInSnapshot(s, r, snap, l)
  {
    StepEvolves(s, op, l);
    assert VerOk(s, l);
  }

  lemma ReadingStep(s: Engine, op: Op, r: Xid, snap: set<Xid>)
    requires Inv(s) && WriterOk(op) && Reading(s, r, snap) && LeavesReader(op, r)
    ensures Reading(Step(s, op), r, snap)
  {
    StepActive(s, op);
    forall l | HasLoc(Step(s, op).cur, l) ensures At(Step(s, op).cur, l).xmin != r && At(Step(s, op).cur, l).xmax != r {
      StepEvolves(s, op, l);
    }
  }

  lemma {:induction false} SnapshotRun(s: Engine, ops: seq<Op>, r: Xid, snap: set<Xid>, l: Loc)
    requires Inv(s) && WritersOk(ops) && Bounded(Run(s, ops)) && Reading(s, r, snap)
    requires forall i :: 0 <= i < |ops| ==> LeavesReader(ops[i], r)
    ensures Reading(Run(s, ops), r, snap)
    ensures SeenInSnapshot(Run(s, ops), r, snap, l) <==> SeenInSnapshot(s, r, snap, l)
    decreases |ops|
  {
    if ops != [] {
      var t := Step(s, ops[0]);
      RunGrows(t, ops[1..]);
      assert WriterOk(ops[0]) && LeavesReader(ops[0], r);
      StepInv(s, ops[0]);
      ReadingStep(s, ops[0], r, snap);
      SnapshotStep(s, ops[0], r, snap, l);
      SnapshotRun(t, ops[1..], r, snap, l);
    }
  }

  predicate ReadsCommitted(s: Engine, r: Xid, cid: Cid, l: Loc) {
    HasLoc(s.cur, l) && Visible(At(s.cur, l), r, cid, READ_COMMITTED, A(s))
  }

  predicate ReadsRepeatable(s: Engine, r: Xid, cid: Cid, l: Loc)
    requires r in s.tm.snaps
  {
    HasLoc(s.cur, l) && Visible(At(s.cur, l), r, cid, REPEATABLE_READ, s.tm.snaps[r])
  }

  // What the reader sees when it begins, in terms of the snapshot.
  lemma BeginReads(s1: Engine, cid: Cid, l: Loc)
    requires Inv(s1) && Bounded(Step(s1, Begin))
    ensures var r := s1.tm.nextXid; var s := Step(s1, Begin);
      && Inv(s) && Reading(s, r, A(s1))
      && (SeenInSnapshot(s, r, A(s1), l) <==> ReadsCommitted(s, r, cid, l))
  {
    var r := s1.tm.nextXid;
    var s := Step(s1, Begin);
    BeginInv(s1);
    forall m | HasLoc(s.cur, m) ensures At(s.cur, m).xmin != r && At(s.cur, m).xmax != r { assert VerOk(s1, m); }
    assert VerOk(s1, l);
    if HasLoc(s.cur, l) {
      ReadCommittedMeaning(At(s.cur, l), r, cid, A(s));
    }
  }

  lemma ReaderReads(t: Engine, r: Xid, snap: set<Xid>, cid: Cid, l: Loc)
    requires Reading(t, r, snap)
    ensures SeenInSnapshot(t, r, snap, l) <==> ReadsRepeatable(t, r, cid, l)
  {
    if HasLoc(t.cur, l) {
      RepeatableReadMeaning(At(t.cur, l), r, cid, snap);
    }
  }

  lemma {:induction false} PayloadStays(s: Engine, ops: seq<Op>, l: Loc)
    requires Inv(s) && WritersOk(ops) && Bounded(Run(s, ops))
    ensures HasLoc(s.cur, l) ==> HasLoc(Run(s, ops).cur, l) && At(Run(s, ops).cur, l).payload == At(s.cur, l).payload
    decreases |ops|
  {
    if ops != [] {
      RunGrows(Step(s, ops[0]), ops[1..]);
      assert WriterOk(ops[0]);
      StepInv(s, ops[0]);
      StepEvolves(s, ops[0], l);
      PayloadStays(Step(s, ops[0]), ops[1..], l);
    }
  }

  /** REPEATABLE READ is a true snapshot: whatever other writers, commits,
      rollbacks and background work happen later, a read-only transaction sees
      at every later point exactly the versions a READ COMMITTED scan would
      have returned when it began, with the same contents. */
  lemma RepeatableReadIsSnapshot(s0: Engine, before: seq<Op>, after: seq<Op>, cid: Cid, cid': Cid, l: Loc)
    requires Init(s0) && WritersOk(before) && WritersOk(after)
    requires var s := Step(Run(s0, before), Begin); Bounded(Run(s, after))
    requires var r := Run(s0, before).tm.nextXid; forall i :: 0 <= i < |after| ==> LeavesReader(after[i], r)
    ensures var r := Run(s0, before).tm.nextXid;
      var s := Step(Run(s0, before), Begin);
      var t := Run(s, after);
      && r in t.tm.snaps
      && (ReadsRepeatable(t, r, cid', l) <==> ReadsCommitted(s, r, cid, l))
      && (ReadsRepeatable(t, r, cid', l) ==> At(t.cur, l).payload == At(s.cur, l).payload)
  {
    var s1 := Run(s0, before);
    var s := Step(s1, Begin);
    RunGrows(s, after);
    StepGrows(s1, Begin);
    InitInv(s0);
    RunInv(s0, before);
    BeginReads(s1, cid, l);
    SnapshotRun(s, after, s1.tm.nextXid, A(s1), l);
    ReaderReads(Run(s, after), s1.tm.nextXid, A(s1), cid', l);
    PayloadStays(s, after, l);
  }

  // ---- one version per logical row ----------------------------------------

  predicate InRow(s: Engine, l: Loc, row: Loc) {
    l in s.rowOf && s.rowOf[l] == row
  }

  // Along a chain, what sees a later version's inserter sees the earlier ones.
  lemma {:induction false} SeesEarlier(s: Engine, row: Loc, t: Xid, i: nat, j: nat)
    requires Inv(s) && row in s.chains && i <= j < |s.chains[row]|
    requires forall k :: 0 <= k < |s.chains[row]| ==> HasLoc(s.cur, s.chains[row][k])
    requires Sees(t, A(s), At(s.cur, s.chains[row][j]).xmin)
    ensures Sees(t, A(s), At(s.cur, s.chains[row][i]).xmin)
    decreases j - i
  {
    if i < j {
      assert ChainOk(s, row);
      assert Linked(s, s.chains[row][j - 1], s.chains[row][j - 1 + 1]);
      SeesEarlier(s, row, t, i, j - 1);
    }
  }

  lemma ChainPlaces(s: Engine, row: Loc)
    requires Inv(s) && row in s.chains
    ensures forall k :: 0 <= k < |s.chains[row]| ==> HasLoc(s.cur, s.chains[row][k])
  {
    assert ChainOk(s, row);
  }

  // A seen inserter of a later version means the earlier one is seen deleted.
  lemma EarlierDeleted(s: Engine, row: Loc, t: Xid, i: nat, j: nat)
    requires Inv(s) && row in s.chains && i < j < |s.chains[row]|
    requires forall k :: 0 <= k < |s.chains[row]| ==> HasLoc(s.cur, s.chains[row][k])
    requires Sees(t, A(s), At(s.cur, s.chains[row][j]).xmin)
    ensures SeesDelete(At(s.cur, s.chains[row][i]), t, A(s))
  {
    assert ChainOk(s, row);
    SeesEarlier(s, row, t, i + 1, j);
    assert Linked(s, s.chains[row][i], s.chains[row][i + 1]);
    assert VerOk(s, s.chains[row][i + 1]);
  }

  // A visible version belongs to its row's chain.
  lemma VisibleInChain(s: Engine, t: Xid, cid: Cid, l: Loc)
    requires Inv(s) && t in A(s) && ReadsCommitted(s, t, cid, l)
    ensures l in s.rowOf && s.rowOf[l] in s.chains && l in s.chains[s.rowOf[l]]
    ensures Sees(t, A(s), At(s.cur, l).xmin) && !SeesDelete(At(s.cur, l), t, A(s))
  {
    assert RowOfOk(s, l) && VerOk(s, l);
    ReadCommittedMeaning(At(s.cur, l), t, cid, A(s));
  }

  /** No transaction ever sees two versions of one logical row. */
  lemma AtMostOneVersion(s: Engine, t: Xid, cid: Cid, a: Loc, b: Loc)
    requires Inv(s) && t in A(s)
    requires ReadsCommitted(s, t, cid, a) && ReadsCommitted(s, t, cid, b)
    requires a in s.rowOf && InRow(s, b, s.rowOf[a])
    ensures a == b
  {
    VisibleInChain(s, t, cid, a);
    VisibleInChain(s, t, cid, b);
    var row := s.rowOf[a];
    var c := s.chains[row];
    ChainPlaces(s, row);
    var i :| 0 <= i < |c| && c[i] == a;
    var j :| 0 <= j < |c| && c[j] == b;
    if i < j {
      EarlierDeleted(s, row, t, i, j);
    } else if j < i {
      EarlierDeleted(s, row, t, j, i);
    }
  }

  predicate SeesFirstInsert(s: Engine, t: Xid, row: Loc)
    requires row in s.chains && forall k :: 0 <= k < |s.chains[row]| ==> HasLoc(s.cur, s.chains[row][k])
  {
    s.chains[row] != [] && Sees(t, A(s), At(s.cur, s.chains[row][0]).xmin)
  }

  // Whether the newest version is seen deleted: the row itself, not one version, is gone.
  predicate SeesRowDelete(s: Engine, t: Xid, row: Loc)
    requires row in s.chains && forall k :: 0 <= k < |s.chains[row]| ==> HasLoc(s.cur, s.chains[row][k])
  {
    s.chains[row] != [] && SeesDelete(At(s.cur, s.chains[row][|s.chains[row]| - 1]), t, A(s))
  }

  // The newest version whose inserter is seen.
  lemma {:induction false} NewestSeen(s: Engine, t: Xid, row: Loc, n: nat) returns (i: nat)
    requires row in s.chains && 0 < n <= |s.chains[row]|
    requires forall k :: 0 <= k < |s.chains[row]| ==> HasLoc(s.cur, s.chains[row][k])
    requires Sees(t, A(s), At(s.cur, s.chains[row][0]).xmin)
    requires n < |s.chains[row]| ==> !Sees(t, A(s), At(s.cur, s.chains[row][n]).xmin)
    ensures i < n && Sees(t, A(s), At(s.cur, s.chains[row][i]).xmin)
    ensures i + 1 < |s.chains[row]| ==> !Sees(t, A(s), At(s.cur, s.chains[row][i + 1]).xmin)
  {
    if Sees(t, A(s), At(s.cur, s.chains[row][n - 1]).xmin) {
      i := n - 1;
    } else {
      i := NewestSeen(s, t, row, n - 1);
    }
  }

  // The insert is seen and no delete: the newest seen version is visible.
  lemma SeenIsVisible(s0: Engine, t: Xid, row: Loc) returns (l: Loc)
    requires Inv(s0) && t in A(s0) && row in s0.chains && Inv(Step(s0, Command(t)))
    requires forall k :: 0 <= k < |s0.chains[row]| ==> HasLoc(s0.cur, s0.chains[row][k])
    requires var s := Step(s0, Command(t)); SeesFirstInsert(s, t, row) && !SeesRowDelete(s, t, row)
    ensures var s := Step(s0, Command(t)); ReadsCommitted(s, t, s.cmd[t], l) && InRow(s, l, row)
  {
    var s := Step(s0, Command(t));
    var c := s.chains[row];
    assert ChainOk(s, row);
    var i := NewestSeen(s, t, row, |c|);
    l := c[i];
    assert VerOk(s0, l);
    if i + 1 < |c| { assert Linked(s, c[i], c[i + 1]); }
    ReadCommittedMeaning(At(s.cur, l), t, s.cmd[t], A(s));
  }

  // A visible version: its row's insert is seen and no delete.
  lemma VisibleIsSeen(s: Engine, t: Xid, row: Loc, cid: Cid, l: Loc)
    requires Inv(s) && t in A(s) && row in s.chains
    requires forall k :: 0 <= k < |s.chains[row]| ==> HasLoc(s.cur, s.chains[row][k])
    requires ReadsCommitted(s, t, cid, l) && InRow(s, l, row)
    ensures SeesFirstInsert(s, t, row) && !SeesRowDelete(s, t, row)
  {
    var c := s.chains[row];
    VisibleInChain(s, t, cid, l);
    var i :| 0 <= i < |c| && c[i] == l;
    SeesEarlier(s, row, t, 0, i);
    var last := |c| - 1;
    assert VerOk(s, c[last]);
    if SeesRowDelete(s, t, row) && i < last {
      EarlierDeleted(s, row, t, i, last);
    }
  }

  /** When a command starts, the transaction sees a version of a logical row
      if and only if it sees the row's insert and does not see its delete. */
  lemma VisibleIffInsertedNotDeleted(s0: Engine, t: Xid, row: Loc)
    requires Inv(s0) && t in A(s0) && row in s0.chains
    ensures var s := Step(s0, Command(t));
      && (forall k :: 0 <= k < |s.chains[row]| ==> HasLoc(s.cur, s.chains[row][k]))
      && ((exists l :: ReadsCommitted(s, t, s.cmd[t], l) && InRow(s, l, row))
          <==> SeesFirstInsert(s, t, row) && !SeesRowDelete(s, t, row))
  {
    var s := Step(s0, Command(t));
    CommandInv(s0, t);
    ChainPlaces(s, row);
    if SeesFirstInsert(s, t, row) && !SeesRowDelete(s, t, row) {
      var l := SeenIsVisible(s0, t, row);
    }
    if l :| ReadsCommitted(s, t, s.cmd[t], l) && InRow(s, l, row) {
      VisibleIsSeen(s, t, row, s.cmd[t], l);
    }
  }

  /** Over every run, rollbacks included: at the start of a command a
      transaction sees at most one version of a logical row, and one exactly
      when it sees the row's insert and no delete of it. */
  lemma OneVersionPerRow(s0: Engine, ops: seq<Op>, t: Xid, row: Loc)
    requires Init(s0) && WritersOk(ops) && Bounded(Run(s0, ops))
    requires t in A(Run(s0, ops)) && row in Run(s0, ops).chains
    ensures var s := Step(Run(s0, ops), Command(t));
      && (forall a, b :: ReadsCommitted(s, t, s.cmd[t], a) && ReadsCommitted(s, t, s.cmd[t], b) && InRow(s, a, row) && InRow(s, b, row) ==> a == b)
      && (forall k :: 0 <= k < |s.chains[row]| ==> HasLoc(s.cur, s.chains[row][k]))
      && ((exists l :: ReadsCommitted(s, t, s.cmd[t], l) && InRow(s, l, row))
          <==> SeesFirstInsert(s, t, row) && !SeesRowDelete(s, t, row))
  {
    InitInv(s0);
    RunInv(s0, ops);
    var r := Run(s0, ops);
    CommandInv(r, t);
    VisibleIffInsertedNotDeleted(r, t, row);
    OneInRow(Step(r, Command(t)), t, row);
  }

  lemma OneInRow(s: Engine, t: Xid, row: Loc)
    requires Inv(s) && t in A(s) && t in s.cmd
    ensures forall a, b :: ReadsCommitted(s, t, s.cmd[t], a) && ReadsCommitted(s, t, s.cmd[t], b) && InRow(s, a, row) && InRow(s, b, row) ==> a == b
  {
    forall a, b | ReadsCommitted(s, t, s.cmd[t], a) && ReadsCommitted(s, t, s.cmd[t], b) && InRow(s, a, row) && InRow(s, b, row) ensures a == b {
      AtMostOneVersion(s, t, s.cmd[t], a, b);
    }
  }

  // ---- rollback as if never run -------------------------------------------

  /** A version as it would be had `x` inserted and deleted nothing. */
  function WithoutTx(v: Version, x: Xid): Option<Version> {
    if v.xmin == x then None
    else if v.xmax == x then Some(Unmark(v))
    else Some(v)
  }

  /** For any reader but `x`, any isolation level and any active set or
      snapshot it may have, the rolled back version looks as if `x` had never
      touched it. */
  lemma RolledBackLooksUntouched(v: Version, x: Xid, t: Xid, cid: Cid, iso: Isolation, active: set<Xid>)
    requires x != t && x < NULL_XID && t < NULL_XID
    requires iso == REPEATABLE_READ || x !in active
    requires v.xmin == x ==> v.xmax == NULL_XID || v.xmax == x
    ensures Visible(RolledBack(v, x), t, cid, iso, active) <==>
      WithoutTx(v, x).Some? && Visible(WithoutTx(v, x).value, t, cid, iso, active)
  {
  }

  lemma RollbackLooks(s: Engine, x: Xid, t: Xid, cid: Cid, iso: Isolation, active: set<Xid>, l: Loc)
    requires Inv(s) && x in A(s) && t != x && t < NULL_XID && (iso == REPEATABLE_READ || x !in active)
    ensures var r := StepRollback(s, x);
      (HasLoc(r.cur, l) && Visible(At(r.cur, l), t, cid, iso, active)) <==>
      (HasLoc(s.cur, l) && WithoutTx(At(s.cur, l), x).Some? && Visible(WithoutTx(At(s.cur, l), x).value, t, cid, iso, active))
  {
    RollbackAt(s, x, l);
    assert VerOk(s, l);
    if HasLoc(s.cur, l) {
      RolledBackLooksUntouched(At(s.cur, l), x, t, cid, iso, active);
    }
  }

  /** Rolling back makes the whole database look to every other and every
      later transaction as if `x` had made no insert and no delete. */
  lemma RollbackAsIfNeverRun(s0: Engine, ops: seq<Op>, x: Xid, t: Xid, cid: Cid, iso: Isolation, active: set<Xid>, l: Loc)
    requires Init(s0) && WritersOk(ops) && Bounded(Run(s0, ops))
    requires x in A(Run(s0, ops)) && t != x && t < NULL_XID && (iso == REPEATABLE_READ || x !in active)
    ensures var s := Run(s0, ops);
      var r := StepRollback(s, x);
      (HasLoc(r.cur, l) && Visible(At(r.cur, l), t, cid, iso, active)) <==>
      (HasLoc(s.cur, l) && WithoutTx(At(s.cur, l), x).Some? && Visible(WithoutTx(At(s.cur, l), x).value, t, cid, iso, active))
  {
    InitInv(s0);
    RunInv(s0, ops);
    RollbackLooks(Run(s0, ops), x, t, cid, iso, active, l);
  }

  /** No running transaction notices another one rolling back. */
  lemma RollbackUnnoticed(s: Engine, x: Xid, t: Xid, cid: Cid, iso: Isolation, l: Loc)
    requires Inv(s) && Bounded(StepRollback(s, x)) && x in A(s) && t in A(s) && t != x
    requires iso == REPEATABLE_READ ==> x in s.tm.snaps[t] || x > t
    ensures var r := StepRollback(s, x);
      && t in r.tm.snaps
      && ((HasLoc(r.cur, l) && Visible(At(r.cur, l), t, cid, iso, ScanActive(r, t, iso))) <==>
          (HasLoc(s.cur, l) && Visible(At(s.cur, l), t, cid, iso, ScanActive(s, t, iso))))
  {
    RollbackAt(s, x, l);
    assert VerOk(s, l);
  }
}
