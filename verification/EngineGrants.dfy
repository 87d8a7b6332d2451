/** When a statement goes through: exactly when it sees its row and nobody else
    has a lock that really conflicts with those it asks for. */
module EngineGrants {
  import opened Types
  import opened Locks
  import opened StatementLocks
  import opened Visibility
  import opened Pages
  import opened Wal
  import opened Engine
  import opened EngineRows

  // Nobody else has a lock that conflicts with those of `x` on the row or its table.
  ghost predicate Unopposed(m: LockMap, x: Xid, l: Loc) {
    forall y :: y in m && y != x ==> !ClashesTable(m, x, m[y], l.oid) && !ClashesRow(m, x, m[y], l.oid, l.rid)
  }

  // The locks once both requests of a DELETE or UPDATE are recorded: IS for the
  // scan, X for the row.
  function Wanted(m: LockMap, x: Xid, l: Loc): LockMap {
    AfterLockRow(AfterLockTable(m, x, IS, l.oid), x, X, l.oid, l.rid)
  }

  // Whoever conflicts with a mode conflicts with every stronger one.
  lemma StrongerBars(ls: seq<Lock>, oid: Oid, a: LockType, b: LockType)
    requires BarsTable(ls, oid, a) && Leq(a, b)
    ensures BarsTable(ls, oid, b)
  {
    var i :| 0 <= i < |ls| && IsTable(ls[i], oid) && Clash(ls[i].mode, a);
    assert Clash(ls[i].mode, b);
  }

  // The scan's request alone is refused only if both together are.
  lemma ScanRefused(m: LockMap, x: Xid, l: Loc)
    requires !LockTableOk(m, x, IS, l.oid)
    ensures !Unopposed(Wanted(m, x, l), x, l)
  {
    var m1, m2 := AfterLockTable(m, x, IS, l.oid), Wanted(m, x, l);
    TableRequestMeaning(m, x, IS, l.oid);
    RowRequestMeaning(m1, x, X, l.oid, l.rid);
    var y :| y in m && y != x && BarsTable(m[y], l.oid, TableMode(m1, x, l.oid).value);
    assert m2[y] == m[y];
    StrongerBars(m[y], l.oid, TableMode(m1, x, l.oid).value, TableMode(m2, x, l.oid).value);
    assert ClashesTable(m2, x, m2[y], l.oid);
  }

  lemma RowGranted(m: LockMap, x: Xid, l: Loc)
    ensures var m1 := AfterLockTable(m, x, IS, l.oid);
      LockRowOk(m1, x, X, l.oid, l.rid) <==> Unopposed(Wanted(m, x, l), x, l)
  {
    var m1, m2 := AfterLockTable(m, x, IS, l.oid), Wanted(m, x, l);
    RowRequestMeaning(m1, x, X, l.oid, l.rid);
    forall y | y in m1 && y != x ensures y in m2 && m2[y] == m1[y] {}
  }

  /** The executor goes on to change the row if and only if its scan sees it and
      no other transaction's lock conflicts with the two it asks for. */
  lemma GoesOnIff(s: Engine, x: Xid, iso: Isolation, l: Loc)
    requires Running(s, x) && HasLoc(s.cur, l)
    ensures ScanAndLock(s, x, iso, l).1 <==> SeesRow(s, x, iso, l) && Unopposed(Wanted(s.locks, x, l), x, l)
  {
    RowGranted(s.locks, x, l);
    if !LockTableOk(s.locks, x, IS, l.oid) { ScanRefused(s.locks, x, l); }
  }

  // The row is marked, and the log has the record for it.
  ghost predicate RowDeleted(s: Engine, t: Engine, x: Xid, l: Loc) {
    && HasLoc(s.cur, l) && HasLoc(t.cur, l) && At(t.cur, l) == At(s.cur, l).(deleted := true, xmax := x) && x in s.wal.att
    && Appended(s.wal, t.wal, DeleteLog(s.wal.nextLsn, x, s.wal.att[x], l.oid, l.rid.page, l.rid.slot))
  }

  lemma DeleteLogged(s: Engine, s1: Engine, x: Xid, l: Loc)
    requires x in s.wal.att && HasLoc(s.cur, l) && s1 == s.(locks := s1.locks)
    ensures RowDeleted(s, DoDelete(s1, x, l), x, l)
  {
  }

  /** A DELETE marks and logs its row exactly then, and otherwise leaves pages and
      log alone. */
  lemma DeleteGoesIff(s: Engine, x: Xid, iso: Isolation, l: Loc)
    requires Running(s, x) && HasLoc(s.cur, l)
    ensures var t := StepDelete(s, x, iso, l);
      if SeesRow(s, x, iso, l) && Unopposed(Wanted(s.locks, x, l), x, l) then RowDeleted(s, t, x, l)
      else t.cur == s.cur && t.wal == s.wal
  {
    GoesOnIff(s, x, iso, l);
    DeleteLogged(s, ScanAndLock(s, x, iso, l).0, x, l);
  }

  /** So does an UPDATE that has a page with room for its new version. */
  lemma UpdateGoesIff(s: Engine, x: Xid, iso: Isolation, l: Loc, k: PageKey, payload: seq<byte>)
    requires UpdateReady(s, x, iso, l, k, payload)
    ensures var t := StepUpdate(s, x, iso, l, k, payload);
      if SeesRow(s, x, iso, l) && Unopposed(Wanted(s.locks, x, l), x, l) then
        |t.wal.log| == |s.wal.log| + 2 && t.wal.log[..|s.wal.log|] == s.wal.log
        && Deletes(t.wal.log[|s.wal.log|], l) && Inserts(t.wal.log[|s.wal.log| + 1], NextLoc(s.cur, k))
      else t.cur == s.cur && t.wal == s.wal
  {
    GoesOnIff(s, x, iso, l);
    if ScanAndLock(s, x, iso, l).1 {
      var s1 := ScanAndLock(s, x, iso, l).0;
      UsedSame(s.cur, l, x, k, s.wal.nextLsn);
      BothLogged(s1, x, l, k, payload, s.rowOf[l]);
    }
  }

  lemma BothLogged(s: Engine, x: Xid, l: Loc, k: PageKey, payload: seq<byte>, row: Loc)
    requires x in s.wal.att && x in s.cmd && HasLoc(s.cur, l) && k in s.cur && Fits(DoDelete(s, x, l), k, payload)
    ensures var w, w' := s.wal, DoInsert(DoDelete(s, x, l), x, k, payload, row).wal;
      && |w'.log| == |w.log| + 2 && w'.log[..|w.log|] == w.log
      && Deletes(w'.log[|w.log|], l) && Inserts(w'.log[|w.log| + 1], NextLoc(s.cur, k))
  {
  }

  /** An INSERT into a page with room goes through if and only if no other
      transaction's table lock conflicts with IX joined to what the caller has. */
  lemma InsertGoesIff(s: Engine, x: Xid, k: PageKey, payload: seq<byte>)
    requires Running(s, x) && Fits(s, k, payload)
    ensures var t, m := StepInsert(s, x, k, payload), AfterLockTable(s.locks, x, IX, k.oid);
      if forall y :: y in m && y != x ==> !ClashesTable(m, x, m[y], k.oid) then
        |t.wal.log| == |s.wal.log| + 1 && t.wal.log[..|s.wal.log|] == s.wal.log && Inserts(t.wal.log[|s.wal.log|], NextLoc(s.cur, k))
      else t.cur == s.cur && t.wal == s.wal
  {
    var m := AfterLockTable(s.locks, x, IX, k.oid);
    TableRequestMeaning(s.locks, x, IX, k.oid);
    forall y | y in s.locks && y != x ensures y in m && m[y] == s.locks[y] {}
  }

  /** Commit and rollback leave the transaction no lock, and take none from
      anybody else. */
  lemma EndForgets(s: Engine, x: Xid)
    requires x in s.tm.cids && x in s.tm.snaps && x in s.wal.att
    ensures HoldsNothing(StepCommit(s, x).locks, x) && OthersHold(s.locks, StepCommit(s, x).locks, x)
    ensures HoldsNothing(StepRollback(s, x).locks, x) && OthersHold(s.locks, StepRollback(s, x).locks, x)
  {
    ReleaseForgets(s.locks, x);
  }
}
