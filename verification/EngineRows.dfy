/** The row operations keep the engine's invariant. */
module EngineRows {
  import opened Types
  import opened Locks
  import opened Visibility
  import opened Transactions
  import opened Pages
  import opened Wal
  import opened Replay
  import opened Engine
  import opened EngineInv
  import LockSafety

  // ---- delete -------------------------------------------------------------

  /** What a writer knows when it reaches Table::DeleteRecord. */
  ghost predicate MayDelete(s: Engine, x: Xid, l: Loc) {
    && Inv(s) && Running(s, x) && HasLoc(s.cur, l)
    && At(s.cur, l).xmax == NULL_XID
    && Sees(x, A(s), At(s.cur, l).xmin)
    && RowMode(s.locks, x, l.oid, l.rid) == Some(X)
  }

  lemma DeleteAt(s: Engine, x: Xid, l: Loc, m: Loc)
    requires x in s.wal.att && HasLoc(s.cur, l)
    ensures HasLoc(DoDelete(s, x, l).cur, m) <==> HasLoc(s.cur, m)
    ensures HasLoc(s.cur, m) ==>
      At(DoDelete(s, x, l).cur, m) == if m == l then MarkDeleted(At(s.cur, l), x) else At(s.cur, m)
  {
    var c := SetAt(s.cur, l, MarkDeleted(At(s.cur, l), x));
    SetAtFacts(s.cur, l, MarkDeleted(At(s.cur, l), x), m);
    SetPageLsnFacts(c, KeyOf(l), s.wal.nextLsn, m);
  }

  lemma InsertFirstPush(log: seq<LogRec>, r: LogRec)
    requires InsertFirst(log)
    requires r.InsertLog? ==> forall i :: 0 <= i < |log| && IsRowRec(log[i]) ==> LocOfRec(log[i]) != LocOfRec(r)
    ensures InsertFirst(log + [r])
  {
    var a := log + [r];
    forall i, j | 0 <= i < j < |a| && IsRowRec(a[i]) && a[j].InsertLog? ensures LocOfRec(a[i]) != LocOfRec(a[j]) {
      assert a[i] == log[i];
      if j < |log| { assert a[j] == log[j]; }
    }
  }

  lemma DeleteLogs(s: Engine, x: Xid, l: Loc)
    requires MayDelete(s, x, l) && Bounded(DoDelete(s, x, l))
    ensures LogXidsOk(DoDelete(s, x, l)) && TxOk(DoDelete(s, x, l))
  {
    var s' := DoDelete(s, x, l);
    AppendDeleteInv(s.wal, x, l);
    var r := s'.wal.log[|s.wal.log|];
    assert s'.wal.log == s.wal.log + [r];
    InsertFirstPush(s.wal.log, r);
    forall i | 0 <= i < |s'.wal.log| && IsRowRec(s'.wal.log[i]) ensures HasLoc(s'.cur, LocOfRec(s'.wal.log[i])) {
      DeleteAt(s, x, l, LocOfRec(s'.wal.log[i]));
      if i < |s.wal.log| { assert s'.wal.log[i] == s.wal.log[i]; }
    }
  }

  lemma DeleteVersion(s: Engine, x: Xid, l: Loc, y: Xid, m: Loc)
    requires MayDelete(s, x, l)
    ensures VerOk(DoDelete(s, x, l), m) && LinkOk(DoDelete(s, x, l), y, m)
  {
    var s' := DoDelete(s, x, l);
    assert VerOk(s, m) && LinkOk(s, y, m);
    DeleteAt(s, x, l, m);
    var r := DeleteLog(s.wal.nextLsn, x, s.wal.att[x], l.oid, l.rid.page, l.rid.slot);
    assert s'.wal.log == s.wal.log + [r];
    ByPush(s.wal.log, r, y, m);
  }

  lemma DeleteRows(s: Engine, x: Xid, l: Loc, m: Loc)
    requires MayDelete(s, x, l)
    ensures RowOfOk(DoDelete(s, x, l), m) && ChainOk(DoDelete(s, x, l), m)
  {
    var s' := DoDelete(s, x, l);
    assert RowOfOk(s, m) && ChainOk(s, m) && VerOk(s, m);
    DeleteAt(s, x, l, m);
    if m in s.chains {
      var c := s.chains[m];
      forall i | 0 <= i < |c| ensures HasLoc(s'.cur, c[i]) { DeleteAt(s, x, l, c[i]); }
      forall i | 0 <= i < |c| - 1 ensures Linked(s', c[i], c[i + 1]) {
        assert Linked(s, c[i], c[i + 1]) && VerOk(s, c[i + 1]);
        DeleteAt(s, x, l, c[i]);
        DeleteAt(s, x, l, c[i + 1]);
      }
    }
  }

  lemma DeleteInv(s: Engine, x: Xid, l: Loc)
    requires MayDelete(s, x, l) && Bounded(DoDelete(s, x, l))
    ensures Inv(DoDelete(s, x, l))
  {
    var s' := DoDelete(s, x, l);
    DeleteLogs(s, x, l);
    forall y, m ensures LockOnRow(s', y, m) {
      assert LockOnRow(s, y, m);
      DeleteAt(s, x, l, m);
    }
    forall m ensures VerOk(s', m) { DeleteVersion(s, x, l, x, m); }
    forall y, m ensures LinkOk(s', y, m) { DeleteVersion(s, x, l, y, m); }
    forall m ensures RowOfOk(s', m) && ChainOk(s', m) { DeleteRows(s, x, l, m); }
  }

  // ---- insert -------------------------------------------------------------

  /** Where a new version may go: as a row of its own, or after the newest
      version of a row that the same transaction has just deleted. */
  ghost predicate MayInsert(s: Engine, x: Xid, k: PageKey, payload: seq<byte>, row: Loc) {
    && Inv(s) && Running(s, x) && Fits(s, k, payload)
    && (row == NextLoc(s.cur, k) ||
        (row in s.chains && s.chains[row] != [] &&
         var tip := s.chains[row][|s.chains[row]| - 1];
         HasLoc(s.cur, tip) && At(s.cur, tip).xmax == x && Sees(x, A(s), At(s.cur, tip).xmin)))
  }

  lemma InsertAt(s: Engine, x: Xid, k: PageKey, payload: seq<byte>, row: Loc, m: Loc)
    requires x in s.wal.att && x in s.cmd && Fits(s, k, payload)
    ensures var c := DoInsert(s, x, k, payload, row).cur;
      && (HasLoc(c, m) <==> HasLoc(s.cur, m) || m == NextLoc(s.cur, k))
      && (HasLoc(c, m) ==> At(c, m) == if m == NextLoc(s.cur, k) then NewVersion(s, x, payload) else At(s.cur, m))
    ensures !HasLoc(s.cur, NextLoc(s.cur, k))
  {
    var v := NewVersion(s, x, payload);
    AppendFacts(s.cur, k, v, m);
    SetPageLsnFacts(Append(s.cur, k, v), k, s.wal.nextLsn, m);
  }

  function InsertRec(s: Engine, x: Xid, k: PageKey, payload: seq<byte>): LogRec
    requires x in s.wal.att && x in s.cmd && Fits(s, k, payload)
  {
    var v := NewVersion(s, x, payload);
    var l := NextLoc(s.cur, k);
    InsertLog(s.wal.nextLsn, x, s.wal.att[x], l.oid, l.rid.page, l.rid.slot, OffsetFor(s.cur[k], RecordSize(v)), v)
  }

  lemma InsertLogs(s: Engine, x: Xid, k: PageKey, payload: seq<byte>, row: Loc)
    requires MayInsert(s, x, k, payload, row) && Bounded(DoInsert(s, x, k, payload, row))
    ensures LogXidsOk(DoInsert(s, x, k, payload, row)) && TxOk(DoInsert(s, x, k, payload, row))
  {
    var s' := DoInsert(s, x, k, payload, row);
    var r := InsertRec(s, x, k, payload);
    AppendInsertInv(s.wal, x, NextLoc(s.cur, k), r.offset, r.rec);
    assert s'.wal.log == s.wal.log + [r];
    InsertAt(s, x, k, payload, row, NextLoc(s.cur, k));
    InsertFirstPush(s.wal.log, r);
    forall i | 0 <= i < |s'.wal.log| && IsRowRec(s'.wal.log[i]) ensures HasLoc(s'.cur, LocOfRec(s'.wal.log[i])) {
      InsertAt(s, x, k, payload, row, LocOfRec(s'.wal.log[i]));
      if i < |s.wal.log| { assert s'.wal.log[i] == s.wal.log[i]; }
    }
  }

  lemma NoRecYet(s: Engine, y: Xid, m: Loc)
    requires Inv(s) && !HasLoc(s.cur, m)
    ensures !InsertedBy(s.wal.log, |s.wal.log|, y, m) && !DeletedBy(s.wal.log, |s.wal.log|, y, m)
  {
  }

  lemma InsertVersion(s: Engine, x: Xid, k: PageKey, payload: seq<byte>, row: Loc, y: Xid, m: Loc)
    requires MayInsert(s, x, k, payload, row)
    ensures VerOk(DoInsert(s, x, k, payload, row), m) && LinkOk(DoInsert(s, x, k, payload, row), y, m)
  {
    var s' := DoInsert(s, x, k, payload, row);
    assert VerOk(s, m) && LinkOk(s, y, m);
    InsertAt(s, x, k, payload, row, m);
    var r := InsertRec(s, x, k, payload);
    assert s'.wal.log == s.wal.log + [r];
    ByPush(s.wal.log, r, y, m);
    if m == NextLoc(s.cur, k) {
      NoRecYet(s, y, m);
    }
  }

  lemma InsertRowOf(s: Engine, x: Xid, k: PageKey, payload: seq<byte>, row: Loc, m: Loc)
    requires MayInsert(s, x, k, payload, row)
    ensures RowOfOk(DoInsert(s, x, k, payload, row), m)
  {
    var s' := DoInsert(s, x, k, payload, row);
    var l := NextLoc(s.cur, k);
    assert RowOfOk(s, m) && RowOfOk(s, row);
    InsertAt(s, x, k, payload, row, m);
    InsertAt(s, x, k, payload, row, row);
    assert s'.chains[row][|s'.chains[row]| - 1] == l;
    if HasLoc(s.cur, m) && s.rowOf[m] == row && m in s.chains[row] {
      assert m in s'.chains[row];
    }
  }

  // Each place of a chain after an insert is an old one or the new version.
  lemma InsertChainPlaces(s: Engine, x: Xid, k: PageKey, payload: seq<byte>, row: Loc, r: Loc, i: nat)
    requires MayInsert(s, x, k, payload, row)
    requires var s' := DoInsert(s, x, k, payload, row); r in s'.chains && i < |s'.chains[r]|
    ensures var s' := DoInsert(s, x, k, payload, row);
      var c' := s'.chains[r];
      HasLoc(s'.cur, c'[i]) && c'[i] in s'.rowOf && s'.rowOf[c'[i]] == r
  {
    var s' := DoInsert(s, x, k, payload, row);
    assert ChainOk(s, r);
    InsertAt(s, x, k, payload, row, s'.chains[r][i]);
    if r in s.chains && i < |s.chains[r]| { assert s'.chains[r][i] == s.chains[r][i]; }
  }

  lemma InsertChain(s: Engine, x: Xid, k: PageKey, payload: seq<byte>, row: Loc, r: Loc)
    requires MayInsert(s, x, k, payload, row)
    ensures ChainOk(DoInsert(s, x, k, payload, row), r)
  {
    var s' := DoInsert(s, x, k, payload, row);
    assert ChainOk(s, r) && RowOfOk(s, NextLoc(s.cur, k)) && RowOfOk(s, row);
    InsertAt(s, x, k, payload, row, NextLoc(s.cur, k));
    if r in s'.chains {
      var c' := s'.chains[r];
      var c := if r in s.chains then s.chains[r] else [];
      forall i | 0 <= i < |c'| ensures HasLoc(s'.cur, c'[i]) && c'[i] in s'.rowOf && s'.rowOf[c'[i]] == r {
        InsertChainPlaces(s, x, k, payload, row, r, i);
      }
      forall i | 0 <= i < |c'| - 1 ensures Linked(s', c'[i], c'[i + 1]) {
        InsertAt(s, x, k, payload, row, c'[i]);
        InsertAt(s, x, k, payload, row, c'[i + 1]);
        assert c'[i] == c[i];
        if i + 1 < |c| {
          assert c'[i + 1] == c[i + 1];
          assert Linked(s, c[i], c[i + 1]);
        }
      }
    }
  }

  lemma InsertInv(s: Engine, x: Xid, k: PageKey, payload: seq<byte>, row: Loc)
    requires MayInsert(s, x, k, payload, row) && Bounded(DoInsert(s, x, k, payload, row))
    ensures Inv(DoInsert(s, x, k, payload, row))
  {
    var s' := DoInsert(s, x, k, payload, row);
    InsertLogs(s, x, k, payload, row);
    forall y, m ensures LockOnRow(s', y, m) {
      assert LockOnRow(s, y, m);
      InsertAt(s, x, k, payload, row, m);
    }
    forall m ensures VerOk(s', m) { InsertVersion(s, x, k, payload, row, x, m); }
    forall y, m ensures LinkOk(s', y, m) { InsertVersion(s, x, k, payload, row, y, m); }
    forall m ensures RowOfOk(s', m) { InsertRowOf(s, x, k, payload, row, m); }
    forall m ensures ChainOk(s', m) { InsertChain(s, x, k, payload, row, m); }
  }

  // Locking the row just inserted.
  lemma LockNewInv(s: Engine, x: Xid, l: Loc)
    requires Inv(s) && HasLoc(s.cur, l)
    ensures Inv(LockNew(s, x, l))
  {
    RowReqInv(s, x, X, l);
  }

  // ---- the three statements -----------------------------------------------

  lemma StepInsertInv(s: Engine, x: Xid, k: PageKey, payload: seq<byte>)
    requires Inv(s) && Bounded(StepInsert(s, x, k, payload))
    ensures Inv(StepInsert(s, x, k, payload))
  {
    if Running(s, x) && Fits(s, k, payload) {
      TableReqInv(s, x, IX, k.oid);
      var s1 := WithLocks(s, AfterLockTable(s.locks, x, IX, k.oid));
      var l := NextLoc(s.cur, k);
      if LockTableOk(s.locks, x, IX, k.oid) {
        InsertInv(s1, x, k, payload, l);
        InsertAt(s1, x, k, payload, l, l);
        LockNewInv(DoInsert(s1, x, k, payload, l), x, l);
      }
    }
  }

  // A refused or fruitless scan leaves only recorded locks behind.
  lemma ScanAndLockInv(s: Engine, x: Xid, iso: Isolation, l: Loc)
    requires Inv(s) && Running(s, x) && HasLoc(s.cur, l)
    ensures Inv(ScanAndLock(s, x, iso, l).0)
  {
    TableReqInv(s, x, IS, l.oid);
    RowReqInv(WithLocks(s, AfterLockTable(s.locks, x, IS, l.oid)), x, X, l);
  }

  // A delete is the scan and the lock requests, then perhaps the change.
  lemma DeleteParts(s: Engine, x: Xid, iso: Isolation, l: Loc) returns (s1: Engine, go: bool)
    requires Inv(s) && iso != REPEATABLE_READ && Running(s, x) && HasLoc(s.cur, l)
    ensures s1 == s.(locks := s1.locks) && Inv(s1) && (go ==> MayDelete(s1, x, l))
    ensures StepDelete(s, x, iso, l) == if go then DoDelete(s1, x, l) else s1
  {
    s1 := ScanAndLock(s, x, iso, l).0;
    go := ScanAndLock(s, x, iso, l).1;
    ScanAndLockInv(s, x, iso, l);
    if go { FirstWriter(s, x, iso, l); }
  }

  lemma StepDeleteInv(s: Engine, x: Xid, iso: Isolation, l: Loc)
    requires Inv(s) && iso != REPEATABLE_READ && Bounded(StepDelete(s, x, iso, l))
    ensures Inv(StepDelete(s, x, iso, l))
  {
    if Running(s, x) && HasLoc(s.cur, l) {
      ScanAndLockInv(s, x, iso, l);
      if ScanAndLock(s, x, iso, l).1 {
        FirstWriter(s, x, iso, l);
        DeleteInv(ScanAndLock(s, x, iso, l).0, x, l);
      }
    }
  }

  lemma InnerDeleted(s: Engine, r: Loc, i: nat)
    requires Inv(s) && r in s.chains && i < |s.chains[r]| - 1
    ensures HasLoc(s.cur, s.chains[r][i]) && At(s.cur, s.chains[r][i]).xmax != NULL_XID
  {
    assert ChainOk(s, r);
    assert Linked(s, s.chains[r][i], s.chains[r][i + 1]) && VerOk(s, s.chains[r][i + 1]);
  }

  // The row a writer deletes is the newest version of its logical row.
  lemma DeletedIsTip(s: Engine, l: Loc)
    requires Inv(s) && HasLoc(s.cur, l) && At(s.cur, l).xmax == NULL_XID
    ensures l in s.rowOf && s.rowOf[l] in s.chains && s.chains[s.rowOf[l]] != []
    ensures s.chains[s.rowOf[l]][|s.chains[s.rowOf[l]]| - 1] == l
  {
    assert RowOfOk(s, l) && VerOk(s, l);
    var c := s.chains[s.rowOf[l]];
    assert ChainOk(s, s.rowOf[l]);
    var i :| 0 <= i < |c| && c[i] == l;
    if i < |c| - 1 {
      InnerDeleted(s, s.rowOf[l], i);
    }
  }

  // Delete and insert of one update, after its lock is granted.
  lemma UpdateChange(s: Engine, x: Xid, l: Loc, k: PageKey, payload: seq<byte>)
    requires MayDelete(s, x, l) && Fits(s, k, payload) && Fits(DoDelete(s, x, l), k, payload) && l in s.rowOf
    requires Bounded(DoInsert(DoDelete(s, x, l), x, k, payload, s.rowOf[l]))
    ensures Inv(DoInsert(DoDelete(s, x, l), x, k, payload, s.rowOf[l]))
    ensures HasLoc(DoInsert(DoDelete(s, x, l), x, k, payload, s.rowOf[l]).cur, NextLoc(s.cur, k))
    ensures NextLoc(DoDelete(s, x, l).cur, k) == NextLoc(s.cur, k)
  {
    var s2 := DoDelete(s, x, l);
    var row := s.rowOf[l];
    DeleteInv(s, x, l);
    DeletedIsTip(s, l);
    DeleteAt(s, x, l, l);
    assert MayInsert(s2, x, k, payload, row);
    InsertInv(s2, x, k, payload, row);
    InsertAt(s2, x, k, payload, row, NextLoc(s2.cur, k));
  }

  predicate UpdateReady(s: Engine, x: Xid, iso: Isolation, l: Loc, k: PageKey, payload: seq<byte>) {
    Running(s, x) && HasLoc(s.cur, l) && k.oid == l.oid && Fits(s, k, payload) && l in s.rowOf
  }

  /** The three states an update that is granted its lock goes through. */
  lemma UpdateParts(s: Engine, x: Xid, iso: Isolation, l: Loc, k: PageKey, payload: seq<byte>)
    returns (s1: Engine, s2: Engine, s3: Engine)
    requires Inv(s) && iso != REPEATABLE_READ && Bounded(StepUpdate(s, x, iso, l, k, payload))
    requires UpdateReady(s, x, iso, l, k, payload) && ScanAndLock(s, x, iso, l).1
    ensures s1 == s.(locks := s1.locks) && MayDelete(s1, x, l)
    ensures s2 == DoDelete(s1, x, l) && Fits(s2, k, payload) && Bounded(s2)
    ensures s3 == DoInsert(s2, x, k, payload, s.rowOf[l]) && Bounded(s3)
    ensures StepUpdate(s, x, iso, l, k, payload) == LockNew(s3, x, NextLoc(s.cur, k))
  {
    FirstWriter(s, x, iso, l);
    UsedSame(s.cur, l, x, k, s.wal.nextLsn);
    s1 := ScanAndLock(s, x, iso, l).0;
    s2 := DoDelete(s1, x, l);
    s3 := DoInsert(s2, x, k, payload, s.rowOf[l]);
    DeleteAt(s1, x, l, l);
  }

  lemma StepUpdateInv(s: Engine, x: Xid, iso: Isolation, l: Loc, k: PageKey, payload: seq<byte>)
    requires Inv(s) && iso != REPEATABLE_READ && Bounded(StepUpdate(s, x, iso, l, k, payload))
    ensures Inv(StepUpdate(s, x, iso, l, k, payload))
  {
    if UpdateReady(s, x, iso, l, k, payload) {
      ScanAndLockInv(s, x, iso, l);
      if ScanAndLock(s, x, iso, l).1 {
        var s1, s2, s3 := UpdateParts(s, x, iso, l, k, payload);
        UpdateChange(s1, x, l, k, payload);
        LockNewInv(s3, x, NextLoc(s.cur, k));
      }
    }
  }
}
