/** The executors: scan, filter, lock and change, row by row. */
module Executors {
  import opened Types
  import opened Lists
  import opened Pages
  import opened Wal
  import opened Locks
  import opened LockManagers
  import opened Visibility
  import opened Transactions
  import opened LogManagement
  import opened TableChain
  import opened Tables
  import opened TableScans
  import opened Statements
  import opened StatementLocks

  // The rows a cursor has not passed.
  function Ahead(rows: set<Rid>, c: Rid): set<Rid> { set r | r in rows && !Before(r, c) }

  lemma AheadShrinks(rows: set<Rid>, c: Rid, c': Rid, r: Rid)
    requires r in rows && !Before(r, c) && Before(r, c') && forall l :: Before(l, c) ==> Before(l, c')
    ensures |Ahead(rows, c')| < |Ahead(rows, c)|
  {
    assert Ahead(rows, c') <= Ahead(rows, c) - {r};
    SubsetCard(Ahead(rows, c'), Ahead(rows, c) - {r});
  }

  // The cursor has passed one more of the rows.
  lemma AheadPassed(rows: set<Rid>, ps: PageMap, oid: Oid, n: nat, c: Rid, r: Rid)
    requires ChainOk(ps, oid, n) && HasRow(ps, oid, r) && r in rows && !Before(r, c)
    ensures |Ahead(rows, Succ(ps, oid, r))| < |Ahead(rows, c)|
  {
    SuccFacts(ps, oid, n, r);
    BeforeMono(c, r, Succ(ps, oid, r));
    AheadShrinks(rows, c, Succ(ps, oid, r), r);
  }

  /** From the cursor position `c` the scan came to `found`, or to the end: no
      matching row was passed. */
  ghost predicate Steps(ps: PageMap, oid: Oid, w: View, f: Filter, c: Rid, c': Rid, found: Option<Rid>) {
    match found
    case Some(l) =>
      && HasRow(ps, oid, l) && Matches(At(ps, Loc(oid, l)), w, f) && !Before(l, c)
      && NoMatch(ps, oid, w, f, c, l) && c' == Succ(ps, oid, l)
    case None => c' == END && !Before(END, c) && NoMatch(ps, oid, w, f, c, END)
  }

  lemma BeforeMono(c: Rid, r: Rid, c': Rid)
    requires !Before(r, c) && Before(r, c')
    ensures forall l :: Before(l, c) ==> Before(l, c')
  {
  }

  /** Which set of active transactions each isolation level consults, and the
      IS lock on the table that every call takes. */
  class SeqScanExecutor {
    const xid: Xid
    const iso: Isolation
    const cid: Cid
    const scan: TableScan
    const lockManager: LockManager
    const transactionManager: TransactionManager

    constructor (xid: Xid, iso: Isolation, cid: Cid, table: Table, lockManager: LockManager, transactionManager: TransactionManager)
      requires table.Valid() && xid in transactionManager.xid2activeSet
      ensures this.xid == xid && this.cid == cid && this.iso == iso && this.lockManager == lockManager
      ensures this.transactionManager == transactionManager && fresh(scan) && scan.table == table
      ensures Valid() && forall l :: HasRow(table.store.pages, table.oid, l) ==> !Before(l, scan.rid)
    {
      this.xid, this.iso, this.cid := xid, iso, cid;
      this.lockManager, this.transactionManager := lockManager, transactionManager;
      scan := new TableScan(table);
    }

    ghost predicate Valid()
      reads this, scan, scan.table, scan.table.store, transactionManager
    {
      scan.Valid() && xid in transactionManager.xid2activeSet
    }

    function CurrentView(): View
      reads this, transactionManager
      requires xid in transactionManager.xid2activeSet
    {
      View(xid, iso, cid,
           if iso == REPEATABLE_READ then transactionManager.xid2activeSet[xid] else transactionManager.xid2cid.Keys)
    }

    method Next() returns (r: Result<Option<Rid>>)
      requires Valid()
      modifies scan, lockManager
      ensures Valid()
      ensures lockManager.lockMap == AfterLockTable(old(lockManager.lockMap), xid, IS, scan.table.oid)
      ensures r.Ok? <==> LockTableOk(old(lockManager.lockMap), xid, IS, scan.table.oid)
      ensures r.Err? ==> scan.rid == old(scan.rid) && Contended(lockManager.lockMap, xid, scan.table.oid)
      ensures r.Ok? ==>
        var ps := scan.table.store.pages;
        var oid := scan.table.oid;
        if r.value.Some? then
          var l := r.value.value;
          && HasRow(ps, oid, l) && !Skips(At(ps, Loc(oid, l)), CurrentView()) && !Before(l, old(scan.rid))
          && AllSkipped(ps, oid, CurrentView(), old(scan.rid), l) && scan.rid == Succ(ps, oid, l)
        else scan.rid == END && AllSkipped(ps, oid, CurrentView(), old(scan.rid), END)
    {
      var activeXids;
      if iso == REPEATABLE_READ {
        var snapshot := transactionManager.GetSnapshot(xid);
        activeXids := snapshot.value;
      } else {
        activeXids := transactionManager.GetActiveTransactions();
      }
      if !LockTableOk(lockManager.lockMap, xid, IS, scan.table.oid) { TableRefused(lockManager.lockMap, xid, IS, scan.table.oid); }
      var lockFlag := lockManager.LockTable(xid, IS, scan.table.oid);
      if !lockFlag {
        return Err("seq scan failed");
      }
      var rid := scan.GetNextRecord(View(xid, iso, cid, activeXids));
      r := Ok(rid);
    }

    /** The filter above the scan: the next row that is seen and accepted. */
    method NextMatch(f: Filter) returns (r: Result<Option<Rid>>)
      requires Valid() && AllShaped(lockManager.lockMap)
      modifies scan, lockManager
      ensures Valid() && Keeps(old(lockManager.lockMap), lockManager.lockMap, xid)
      ensures r.Err? ==> Contended(lockManager.lockMap, xid, scan.table.oid)
      ensures r.Ok? ==> Steps(scan.table.store.pages, scan.table.oid, CurrentView(), f, old(scan.rid), scan.rid, r.value)
    {
      ghost var ps, oid, n := scan.table.store.pages, scan.table.oid, scan.table.pageCount;
      while true
        invariant Valid() && !Before(scan.rid, old(scan.rid))
        invariant Keeps(old(lockManager.lockMap), lockManager.lockMap, xid)
        invariant NoMatch(ps, oid, CurrentView(), f, old(scan.rid), scan.rid)
        decreases n - scan.rid.page, if scan.rid.page < n then |ps[PageKey(oid, scan.rid.page)].recs| - scan.rid.slot else 0
      {
        TableRequestKeeps(lockManager.lockMap, xid, IS, oid);
        KeepsTwice(old(lockManager.lockMap), lockManager.lockMap, AfterLockTable(lockManager.lockMap, xid, IS, oid), xid);
        r := Next();
        if r.Err? || r.value.None? {
          return;
        }
        var l := r.value.value;
        SuccFacts(ps, oid, n, l);
        if f(At(scan.table.store.pages, Loc(scan.table.oid, l))) {
          return;
        }
      }
    }

    // The X lock on a row that is about to be, or has just been, written.
    method LockExclusive(rid: Rid) returns (lockFlag: bool)
      requires AllShaped(lockManager.lockMap)
      modifies lockManager
      ensures Keeps(old(lockManager.lockMap), lockManager.lockMap, xid)
      ensures lockFlag ==> Alone(lockManager.lockMap, xid, scan.table.oid, rid)
      ensures !lockFlag ==> Contended(lockManager.lockMap, xid, scan.table.oid)
    {
      RowRequestKeeps(lockManager.lockMap, xid, scan.table.oid, rid);
      if LockRowOk(lockManager.lockMap, xid, X, scan.table.oid, rid) {
        GrantedAlone(lockManager.lockMap, xid, scan.table.oid, rid);
      } else {
        RowRefused(lockManager.lockMap, xid, X, scan.table.oid, rid);
      }
      lockFlag := lockManager.LockRow(xid, X, scan.table.oid, rid);
    }

    /** A whole scan: every row that is seen and accepted, once, in page and
        slot order. */
    method Collect(f: Filter) returns (r: Result<seq<Rid>>)
      requires Valid() && AllShaped(lockManager.lockMap)
      requires forall l :: HasRow(scan.table.store.pages, scan.table.oid, l) ==> !Before(l, scan.rid)
      modifies scan, lockManager
      ensures r.Err? ==> Contended(lockManager.lockMap, xid, scan.table.oid)
      ensures r.Ok? ==>
        var ps := scan.table.store.pages;
        var oid := scan.table.oid;
        && (forall i, j :: 0 <= i < j < |r.value| ==> Before(r.value[i], r.value[j]))
        && (forall l :: l in r.value <==> HasRow(ps, oid, l) && Matches(At(ps, Loc(oid, l)), CurrentView(), f))
    {
      ghost var ps, oid, n, w := scan.table.store.pages, scan.table.oid, scan.table.pageCount, CurrentView();
      var rows: seq<Rid> := [];
      DeleteBegun(ps, oid, w, f, scan.rid);
      while true
        invariant Valid() && w == CurrentView() && AllShaped(lockManager.lockMap)
        invariant Ordered(ps, oid, w, f, scan.rid, rows) && Complete(ps, oid, w, f, scan.rid, rows)
        decreases n - scan.rid.page, if scan.rid.page < n then |ps[PageKey(oid, scan.rid.page)].recs| - scan.rid.slot else 0
      {
        ghost var c := scan.rid;
        var next := NextMatch(f);
        if next.Err? {
          return Err(next.error);
        }
        if next.value.None? {
          Collected(ps, oid, n, w, f, c, rows);
          return Ok(rows);
        }
        SuccFacts(ps, oid, n, next.value.value);
        OneMore(ps, oid, w, f, c, scan.rid, rows, next.value.value);
        rows := rows + [next.value.value];
      }
    }
  }

  lemma OneMore(ps: PageMap, oid: Oid, w: View, f: Filter, c: Rid, c': Rid, rows: seq<Rid>, r: Rid)
    requires Ordered(ps, oid, w, f, c, rows) && Complete(ps, oid, w, f, c, rows)
    requires HasRow(ps, oid, r) && Matches(At(ps, Loc(oid, r)), w, f) && !Before(r, c) && NoMatch(ps, oid, w, f, c, r)
    requires Before(r, c') && forall l :: HasRow(ps, oid, l) ==> (Before(l, c') <==> l == r || Before(l, r))
    ensures Ordered(ps, oid, w, f, c', rows + [r]) && Complete(ps, oid, w, f, c', rows + [r])
  {
    UpdatedOrder(ps, ps, oid, w, f, c, c', rows, r);
    forall l | HasRow(ps, oid, l) && Before(l, c') && Matches(At(ps, Loc(oid, l)), w, f) ensures l in rows + [r] {
      assert l == r || Before(l, r);
    }
  }

  lemma Collected(ps: PageMap, oid: Oid, n: nat, w: View, f: Filter, c: Rid, rows: seq<Rid>)
    requires ChainOk(ps, oid, n) && Ordered(ps, oid, w, f, c, rows) && Complete(ps, oid, w, f, c, rows)
    requires NoMatch(ps, oid, w, f, c, END)
    ensures forall i, j :: 0 <= i < j < |rows| ==> Before(rows[i], rows[j])
    ensures forall l :: l in rows <==> HasRow(ps, oid, l) && Matches(At(ps, Loc(oid, l)), w, f)
  {
    forall l | HasRow(ps, oid, l) && Matches(At(ps, Loc(oid, l)), w, f) ensures l in rows {
      assert Before(l, END);
    }
  }

  // The log has room for `k` row operations of at most 400 bytes each.
  ghost predicate LogRoom(lm: LogManagement.LogManager, k: nat)
    reads lm, lm.disk
  {
    lm.Valid() && lm.nextLsn + 400 * k <= NULL_LSN
  }

  // What the scan found for a DELETE, and where deleting it leads.
  ghost predicate ToDelete(ps0: PageMap, ps: PageMap, oid: Oid, w: View, f: Filter, c: Rid, c': Rid, olds: seq<Rid>, rows: set<Rid>,
                           found: Option<Rid>, lsn: Lsn) {
    match found
    case None => c' == END && Deleted(ps0, ps, oid, w, f, END, olds)
    case Some(l) =>
      && HasRow(ps, oid, l) && |Ahead(rows, c')| < |Ahead(rows, c)|
      && Deleted(ps0, Marked(ps, Loc(oid, l), w.xid, lsn), oid, w, f, c', olds + [l])
  }

  lemma ToDeleteIs(ps0: PageMap, ps: PageMap, oid: Oid, n: nat, w: View, f: Filter, c: Rid, c': Rid, olds: seq<Rid>, rows: set<Rid>,
                   found: Option<Rid>, lsn: Lsn)
    requires ChainOk(ps, oid, n) && Deleted(ps0, ps, oid, w, f, c, olds) && Steps(ps, oid, w, f, c, c', found)
    requires forall l :: HasRow(ps0, oid, l) ==> l in rows
    ensures ToDelete(ps0, ps, oid, w, f, c, c', olds, rows, found, lsn)
  {
    match found
    case None => DeletePassed(ps0, ps, oid, w, f, c, END, olds);
    case Some(l) =>
      DeletedFound(ps0, ps, oid, n, w, f, c, olds, l, lsn);
      AheadPassed(rows, ps, oid, n, c, l);
  }

  class DeleteExecutor {
    const child: SeqScanExecutor
    const filter: Filter
    var finished: bool

    ghost predicate Valid()
      reads this, child, child.scan, child.scan.table, child.scan.table.store, child.transactionManager
      reads child.scan.table.logManager, child.scan.table.logManager.disk, child.lockManager
    {
      && child.Valid() && AllShaped(child.lockManager.lockMap)
      && child.scan.table.logManager.Valid()
      && child.xid in child.scan.table.logManager.att && child.xid < NULL_XID
    }

    constructor (child: SeqScanExecutor, filter: Filter)
      ensures this.child == child && this.filter == filter && !finished
    {
      this.child, this.filter, finished := child, filter, false;
    }

    /** Lock and delete every matching row.  `rows` are the rows of the table
        when the statement starts. */
    method Next(ghost rows: set<Rid>) returns (r: Result<Option<nat>>, ghost olds: seq<Rid>)
      requires Valid() && LogRoom(child.scan.table.logManager, |rows|)
      requires forall l :: HasRow(child.scan.table.store.pages, child.scan.table.oid, l) <==> l in rows
      requires forall l :: l in rows ==> !Before(l, child.scan.rid)
      modifies this, child.scan, child.lockManager, child.scan.table.store, child.scan.table.logManager
      ensures Valid()
      ensures old(finished) ==> r == Ok(None) && child.scan.table.store.pages == old(child.scan.table.store.pages)
      ensures var ps0, ps := old(child.scan.table.store.pages), child.scan.table.store.pages;
        !old(finished) && r.Ok? ==>
          finished && r.value == Some(|olds|) && Deleted(ps0, ps, child.scan.table.oid, child.CurrentView(), filter, END, olds)
      ensures AllAlone(child.lockManager.lockMap, child.xid, child.scan.table.oid, olds)
      ensures r.Err? ==> Contended(child.lockManager.lockMap, child.xid, child.scan.table.oid)
      ensures r.Err? ==>
        OldRows(old(child.scan.table.store.pages), child.scan.table.store.pages, child.scan.table.oid, child.CurrentView(), olds)
    {
      if finished {
        return Ok(None), [];
      }
      var count;
      count, olds := DeleteAll(rows);
      if count.Err? {
        return Err(count.error), olds;
      }
      finished := true;
      r := Ok(Some(count.value));
    }

    method DeleteAll(ghost rows: set<Rid>) returns (r: Result<nat>, ghost olds: seq<Rid>)
      requires Valid() && LogRoom(child.scan.table.logManager, |rows|)
      requires forall l :: HasRow(child.scan.table.store.pages, child.scan.table.oid, l) <==> l in rows
      requires forall l :: l in rows ==> !Before(l, child.scan.rid)
      modifies child.scan, child.lockManager, child.scan.table.store, child.scan.table.logManager
      ensures Valid()
      ensures r.Ok? ==> r.value == |olds|
      ensures r.Ok? ==>
        Deleted(old(child.scan.table.store.pages), child.scan.table.store.pages, child.scan.table.oid, child.CurrentView(), filter, END, olds)
      ensures AllAlone(child.lockManager.lockMap, child.xid, child.scan.table.oid, olds)
      ensures r.Err? ==> Contended(child.lockManager.lockMap, child.xid, child.scan.table.oid)
      ensures r.Err? ==>
        OldRows(old(child.scan.table.store.pages), child.scan.table.store.pages, child.scan.table.oid, child.CurrentView(), olds)
    {
      ghost var ps0 := child.scan.table.store.pages;
      olds := [];
      var count := 0;
      DeleteBegun(ps0, child.scan.table.oid, child.CurrentView(), filter, child.scan.rid);
      SubsetCard(Ahead(rows, child.scan.rid), rows);
      while true
        invariant Valid() && count == |olds|
        invariant AllAlone(child.lockManager.lockMap, child.xid, child.scan.table.oid, olds)
        invariant Deleted(ps0, child.scan.table.store.pages, child.scan.table.oid, child.CurrentView(), filter, child.scan.rid, olds)
        invariant LogRoom(child.scan.table.logManager, |Ahead(rows, child.scan.rid)|)
        decreases |Ahead(rows, child.scan.rid)|
      {
        ghost var m := child.lockManager.lockMap;
        var done := DeleteNext(ps0, olds, rows);
        StillAlone(m, child.lockManager.lockMap, child.xid, child.scan.table.oid, olds);
        if done.Err? {
          return Err(done.error), olds;
        }
        if done.value.None? {
          return Ok(count), olds;
        }
        OneMoreAlone(m, child.lockManager.lockMap, child.xid, child.scan.table.oid, olds, done.value.value);
        olds := olds + [done.value.value];
        count := count + 1;
      }
    }

    // One round: the next matching row is locked and deleted.
    method DeleteNext(ghost ps0: PageMap, ghost olds: seq<Rid>, ghost rows: set<Rid>) returns (r: Result<Option<Rid>>)
      requires Valid() && LogRoom(child.scan.table.logManager, |Ahead(rows, child.scan.rid)|)
      requires Deleted(ps0, child.scan.table.store.pages, child.scan.table.oid, child.CurrentView(), filter, child.scan.rid, olds)
      requires forall l :: HasRow(ps0, child.scan.table.oid, l) ==> l in rows
      modifies child.scan, child.lockManager, child.scan.table.store, child.scan.table.logManager
      ensures Valid() && Keeps(old(child.lockManager.lockMap), child.lockManager.lockMap, child.xid)
      ensures r.Ok? && r.value.Some? ==> Alone(child.lockManager.lockMap, child.xid, child.scan.table.oid, r.value.value)
      ensures r.Err? ==>
        child.scan.table.store.pages == old(child.scan.table.store.pages) && Contended(child.lockManager.lockMap, child.xid, child.scan.table.oid)
      ensures r.Ok? && r.value.None? ==>
        child.scan.rid == END
        && Deleted(ps0, child.scan.table.store.pages, child.scan.table.oid, child.CurrentView(), filter, END, olds)
      ensures r.Ok? && r.value.Some? ==>
        && Deleted(ps0, child.scan.table.store.pages, child.scan.table.oid, child.CurrentView(), filter, child.scan.rid, olds + [r.value.value])
        && |Ahead(rows, child.scan.rid)| < |Ahead(rows, old(child.scan.rid))|
        && LogRoom(child.scan.table.logManager, |Ahead(rows, child.scan.rid)|)
    {
      var record := FindRow(ps0, olds, rows);
      if record.Err? {
        return Err(record.error);
      }
      if record.value.None? {
        return Ok(None);
      }
      var rid := record.value.value;
      var lockFlag := LockAndDelete(rid);
      if !lockFlag {
        return Err("delete lock failed!");
      }
      r := Ok(Some(rid));
    }

    // The next matching row, which is still to delete.
    method FindRow(ghost ps0: PageMap, ghost olds: seq<Rid>, ghost rows: set<Rid>) returns (r: Result<Option<Rid>>)
      requires Valid()
      requires Deleted(ps0, child.scan.table.store.pages, child.scan.table.oid, child.CurrentView(), filter, child.scan.rid, olds)
      requires forall l :: HasRow(ps0, child.scan.table.oid, l) ==> l in rows
      modifies child.scan, child.lockManager
      ensures Valid() && Keeps(old(child.lockManager.lockMap), child.lockManager.lockMap, child.xid)
      ensures r.Err? ==> Contended(child.lockManager.lockMap, child.xid, child.scan.table.oid)
      ensures r.Ok? ==>
        ToDelete(ps0, child.scan.table.store.pages, child.scan.table.oid, child.CurrentView(), filter, old(child.scan.rid), child.scan.rid,
                 olds, rows, r.value, child.scan.table.logManager.nextLsn)
    {
      ghost var c, ps, oid, w := child.scan.rid, child.scan.table.store.pages, child.scan.table.oid, child.CurrentView();
      r := child.NextMatch(filter);
      if r.Ok? {
        ToDeleteIs(ps0, ps, oid, child.scan.table.pageCount, w, filter, c, child.scan.rid, olds, rows, r.value, child.scan.table.logManager.nextLsn);
      }
    }

    method LockAndDelete(rid: Rid) returns (lockFlag: bool)
      requires Valid() && HasRow(child.scan.table.store.pages, child.scan.table.oid, rid)
      requires child.scan.table.logManager.nextLsn + 400 <= NULL_LSN
      modifies child.lockManager, child.scan.table.store, child.scan.table.logManager
      ensures Valid() && Keeps(old(child.lockManager.lockMap), child.lockManager.lockMap, child.xid)
      ensures child.scan.table.logManager.nextLsn <= old(child.scan.table.logManager.nextLsn) + 400
      ensures lockFlag ==> Alone(child.lockManager.lockMap, child.xid, child.scan.table.oid, rid)
      ensures lockFlag ==>
        child.scan.table.store.pages
        == Marked(old(child.scan.table.store.pages), Loc(child.scan.table.oid, rid), child.xid, old(child.scan.table.logManager.nextLsn))
      ensures !lockFlag ==>
        child.scan.table.store.pages == old(child.scan.table.store.pages) && Contended(child.lockManager.lockMap, child.xid, child.scan.table.oid)
    {
      lockFlag := child.LockExclusive(rid);
      if lockFlag {
        DeleteRow(rid);
      }
    }

    // One delete keeps the cursor where it is.
    method DeleteRow(rid: Rid)
      requires Valid() && HasRow(child.scan.table.store.pages, child.scan.table.oid, rid)
      requires child.scan.table.logManager.nextLsn + 400 <= NULL_LSN
      modifies child.scan.table.store, child.scan.table.logManager
      ensures Valid() && child.scan.table.logManager.nextLsn <= old(child.scan.table.logManager.nextLsn) + 400
      ensures child.scan.table.store.pages ==
        Marked(old(child.scan.table.store.pages), Loc(child.scan.table.oid, rid), child.xid, old(child.scan.table.logManager.nextLsn))
    {
      var deleted := child.scan.table.DeleteRecord(rid, child.xid, true);
    }
  }

  // Where the row that the scan found for an UPDATE leaves the cursor.
  lemma ToUpdate(ps0: PageMap, ps: PageMap, oid: Oid, n: nat, w: View, f: Filter, g: NewBytes, c: Rid, c': Rid, olds: seq<Rid>, news: seq<Rid>,
                 rows: set<Rid>, found: Option<Rid>)
    requires ChainOk(ps, oid, n) && Progress(ps0, ps, oid, w, f, g, c, olds, news) && Steps(ps, oid, w, f, c, c', found)
    requires forall l :: HasRow(ps0, oid, l) ==> l in rows
    ensures found.None? ==> Progress(ps0, ps, oid, w, f, g, END, olds, news)
    ensures found.Some? ==> |Ahead(rows, c')| < |Ahead(rows, c)|
  {
    match found
    case None => Passed(ps0, ps, oid, w, f, g, c, END, olds, news);
    case Some(l) =>
      FoundIsOld(ps0, ps, oid, w, f, g, c, olds, news, l);
      AheadPassed(rows, ps, oid, n, c, l);
  }

  class UpdateExecutor {
    const child: SeqScanExecutor
    const filter: Filter
    const newBytes: NewBytes
    var finished: bool

    ghost predicate Valid()
      reads this, child, child.scan, child.scan.table, child.scan.table.store, child.transactionManager
      reads child.scan.table.logManager, child.scan.table.logManager.disk, child.lockManager
    {
      && child.Valid() && AllShaped(child.lockManager.lockMap)
      && child.scan.table.logManager.Valid()
      && child.xid in child.scan.table.logManager.att && child.xid < NULL_XID && child.xid != DDL_XID && child.cid < NULL_XID
    }

    constructor (child: SeqScanExecutor, filter: Filter, newBytes: NewBytes)
      ensures this.child == child && this.filter == filter && this.newBytes == newBytes && !finished
    {
      this.child, this.filter, this.newBytes, finished := child, filter, newBytes, false;
    }

    /** Lock, delete and rewrite every matching row, although the versions it
        writes appear ahead of its own scan.  `rows` are the rows of the table
        when the statement starts; the loop ends because each round passes one
        of them. */
    method Next(ghost rows: set<Rid>) returns (r: Result<Option<nat>>, ghost olds: seq<Rid>, ghost news: seq<Rid>, ghost last: seq<Rid>)
      requires Valid() && child.scan.table.Room(2 * |rows|)
      requires forall l :: HasRow(child.scan.table.store.pages, child.scan.table.oid, l) <==> l in rows
      requires forall l :: l in rows ==> !Before(l, child.scan.rid)
      modifies this, child.scan, child.scan.table, child.lockManager, child.scan.table.store, child.scan.table.logManager
      ensures Valid()
      ensures old(finished) ==> r == Ok(None) && child.scan.table.store.pages == old(child.scan.table.store.pages)
      ensures !old(finished) && r.Ok? ==> finished && r.value == Some(|olds|)
      ensures !old(finished) && r.Ok? ==>
        Progress(old(child.scan.table.store.pages), child.scan.table.store.pages, child.scan.table.oid, child.CurrentView(),
                 filter, newBytes, END, olds, news)
      ensures AllAlone(child.lockManager.lockMap, child.xid, child.scan.table.oid, olds)
      ensures AllAlone(child.lockManager.lockMap, child.xid, child.scan.table.oid, news)
      ensures r.Err? ==>
        Halted(old(child.scan.table.store.pages), child.scan.table.store.pages, child.scan.table.oid, child.CurrentView(),
               filter, newBytes, olds, news, last)
      ensures r.Err? ==>
        Contended(child.lockManager.lockMap, child.xid, child.scan.table.oid)
        || TooLarge(old(child.scan.table.store.pages), child.scan.table.oid, child.CurrentView(), filter, newBytes)
    {
      if finished {
        return Ok(None), [], [], [];
      }
      var count;
      count, olds, news, last := UpdateAll(rows);
      if count.Err? {
        return Err(count.error), olds, news, last;
      }
      finished := true;
      r := Ok(Some(count.value));
    }

    method UpdateAll(ghost rows: set<Rid>) returns (r: Result<nat>, ghost olds: seq<Rid>, ghost news: seq<Rid>, ghost last: seq<Rid>)
      requires Valid() && child.scan.table.Room(2 * |rows|)
      requires forall l :: HasRow(child.scan.table.store.pages, child.scan.table.oid, l) <==> l in rows
      requires forall l :: l in rows ==> !Before(l, child.scan.rid)
      modifies child.scan, child.scan.table, child.lockManager, child.scan.table.store, child.scan.table.logManager
      ensures Valid()
      ensures r.Ok? ==> r.value == |olds|
      ensures r.Ok? ==>
        Progress(old(child.scan.table.store.pages), child.scan.table.store.pages, child.scan.table.oid, child.CurrentView(),
                 filter, newBytes, END, olds, news)
      ensures AllAlone(child.lockManager.lockMap, child.xid, child.scan.table.oid, olds)
      ensures AllAlone(child.lockManager.lockMap, child.xid, child.scan.table.oid, news)
      ensures r.Err? ==>
        Halted(old(child.scan.table.store.pages), child.scan.table.store.pages, child.scan.table.oid, child.CurrentView(),
               filter, newBytes, olds, news, last)
      ensures r.Err? ==>
        Contended(child.lockManager.lockMap, child.xid, child.scan.table.oid)
        || TooLarge(old(child.scan.table.store.pages), child.scan.table.oid, child.CurrentView(), filter, newBytes)
    {
      ghost var ps0 := child.scan.table.store.pages;
      olds, news, last := [], [], [];
      var count := 0;
      Begun(ps0, child.scan.table.oid, child.CurrentView(), filter, newBytes, child.scan.rid);
      SubsetCard(Ahead(rows, child.scan.rid), rows);
      while true
        invariant Valid() && count == |olds|
        invariant AllAlone(child.lockManager.lockMap, child.xid, child.scan.table.oid, olds)
        invariant AllAlone(child.lockManager.lockMap, child.xid, child.scan.table.oid, news)
        invariant Progress(ps0, child.scan.table.store.pages, child.scan.table.oid, child.CurrentView(), filter, newBytes,
                           child.scan.rid, olds, news)
        invariant child.scan.table.Room(2 * |Ahead(rows, child.scan.rid)|)
        decreases |Ahead(rows, child.scan.rid)|
      {
        var more;
        more, olds, news, last := UpdateTurn(ps0, olds, news, rows);
        if more.Err? {
          return Err(more.error), olds, news, last;
        }
        if !more.value {
          return Ok(count), olds, news, last;
        }
        count := count + 1;
      }
    }

    // One turn of the loop, and the locks it adds to those already held.
    method UpdateTurn(ghost ps0: PageMap, ghost olds: seq<Rid>, ghost news: seq<Rid>, ghost rows: set<Rid>)
      returns (more: Result<bool>, ghost olds': seq<Rid>, ghost news': seq<Rid>, ghost last: seq<Rid>)
      requires Valid() && child.scan.table.Room(2 * |Ahead(rows, child.scan.rid)|)
      requires Progress(ps0, child.scan.table.store.pages, child.scan.table.oid, child.CurrentView(), filter, newBytes,
                        child.scan.rid, olds, news)
      requires forall l :: HasRow(ps0, child.scan.table.oid, l) ==> l in rows
      requires AllAlone(child.lockManager.lockMap, child.xid, child.scan.table.oid, olds)
      requires AllAlone(child.lockManager.lockMap, child.xid, child.scan.table.oid, news)
      modifies child.scan, child.scan.table, child.lockManager, child.scan.table.store, child.scan.table.logManager
      ensures Valid()
      ensures AllAlone(child.lockManager.lockMap, child.xid, child.scan.table.oid, olds')
      ensures AllAlone(child.lockManager.lockMap, child.xid, child.scan.table.oid, news')
      ensures more.Err? ==>
        Halted(ps0, child.scan.table.store.pages, child.scan.table.oid, child.CurrentView(), filter, newBytes, olds', news', last)
      ensures more.Err? ==>
        Contended(child.lockManager.lockMap, child.xid, child.scan.table.oid)
        || TooLarge(ps0, child.scan.table.oid, child.CurrentView(), filter, newBytes)
      ensures more == Ok(false) ==>
        |olds'| == |olds|
        && Progress(ps0, child.scan.table.store.pages, child.scan.table.oid, child.CurrentView(), filter, newBytes, END, olds', news')
      ensures more == Ok(true) ==>
        && |olds'| == |olds| + 1
        && Progress(ps0, child.scan.table.store.pages, child.scan.table.oid, child.CurrentView(), filter, newBytes,
                    child.scan.rid, olds', news')
        && |Ahead(rows, child.scan.rid)| < |Ahead(rows, old(child.scan.rid))|
        && child.scan.table.Room(2 * |Ahead(rows, child.scan.rid)|)
    {
      ghost var m := child.lockManager.lockMap;
      olds', news' := olds, news;
      var done;
      done, last := UpdateNext(ps0, olds, news, rows);
      StillAlone(m, child.lockManager.lockMap, child.xid, child.scan.table.oid, olds);
      StillAlone(m, child.lockManager.lockMap, child.xid, child.scan.table.oid, news);
      if done.Err? {
        return Err(done.error), olds, news, last;
      }
      more := Ok(done.value != []);
      if done.value != [] {
        OneMoreAlone(m, child.lockManager.lockMap, child.xid, child.scan.table.oid, olds, done.value[0]);
        OneMoreAlone(m, child.lockManager.lockMap, child.xid, child.scan.table.oid, news, done.value[1]);
        olds' := olds + [done.value[0]];
        news' := news + [done.value[1]];
      }
    }

    // One round: the next matching row is locked and replaced.  Returns its old
    // and its new rid, or nothing when there is no such row.
    method UpdateNext(ghost ps0: PageMap, ghost olds: seq<Rid>, ghost news: seq<Rid>, ghost rows: set<Rid>)
      returns (r: Result<seq<Rid>>, ghost last: seq<Rid>)
      requires Valid() && child.scan.table.Room(2 * |Ahead(rows, child.scan.rid)|)
      requires Progress(ps0, child.scan.table.store.pages, child.scan.table.oid, child.CurrentView(), filter, newBytes,
                        child.scan.rid, olds, news)
      requires forall l :: HasRow(ps0, child.scan.table.oid, l) ==> l in rows
      modifies child.scan, child.scan.table, child.lockManager, child.scan.table.store, child.scan.table.logManager
      ensures Valid() && Keeps(old(child.lockManager.lockMap), child.lockManager.lockMap, child.xid)
      ensures r.Err? ==>
        Halted(ps0, child.scan.table.store.pages, child.scan.table.oid, child.CurrentView(), filter, newBytes, olds, news, last)
      ensures r.Err? ==>
        Contended(child.lockManager.lockMap, child.xid, child.scan.table.oid)
        || TooLarge(ps0, child.scan.table.oid, child.CurrentView(), filter, newBytes)
      ensures r.Ok? ==> r.value == [] || |r.value| == 2
      ensures r.Ok? ==> forall q :: q in r.value ==> Alone(child.lockManager.lockMap, child.xid, child.scan.table.oid, q)
      ensures r.Ok? && r.value == [] ==>
        Progress(ps0, child.scan.table.store.pages, child.scan.table.oid, child.CurrentView(), filter, newBytes, END, olds, news)
      ensures r.Ok? && r.value != [] ==>
        && Progress(ps0, child.scan.table.store.pages, child.scan.table.oid, child.CurrentView(), filter, newBytes,
                    child.scan.rid, olds + [r.value[0]], news + [r.value[1]])
        && |Ahead(rows, child.scan.rid)| < |Ahead(rows, old(child.scan.rid))|
        && child.scan.table.Room(2 * |Ahead(rows, child.scan.rid)|)
    {
      ghost var c, m := child.scan.rid, child.lockManager.lockMap;
      var record := FindNext(ps0, olds, news, rows);
      last := [];
      if record.Err? {
        r := Err(record.error);
      } else if record.value.None? {
        r := Ok([]);
      } else {
        ghost var m' := child.lockManager.lockMap;
        r, last := ReplaceFound(record.value.value, c, ps0, olds, news, |Ahead(rows, child.scan.rid)|);
        KeepsTwice(m, m', child.lockManager.lockMap, child.xid);
      }
    }

    method FindNext(ghost ps0: PageMap, ghost olds: seq<Rid>, ghost news: seq<Rid>, ghost rows: set<Rid>) returns (r: Result<Option<Rid>>)
      requires Valid()
      requires Progress(ps0, child.scan.table.store.pages, child.scan.table.oid, child.CurrentView(), filter, newBytes,
                        child.scan.rid, olds, news)
      requires forall l :: HasRow(ps0, child.scan.table.oid, l) ==> l in rows
      modifies child.scan, child.lockManager
      ensures Valid() && Keeps(old(child.lockManager.lockMap), child.lockManager.lockMap, child.xid)
      ensures r.Err? ==>
        Halted(ps0, child.scan.table.store.pages, child.scan.table.oid, child.CurrentView(), filter, newBytes, olds, news, [])
      ensures r.Err? ==> Contended(child.lockManager.lockMap, child.xid, child.scan.table.oid)
      ensures r == Ok(None) ==>
        Progress(ps0, child.scan.table.store.pages, child.scan.table.oid, child.CurrentView(), filter, newBytes, END, olds, news)
      ensures r.Ok? && r.value.Some? ==>
        && Steps(child.scan.table.store.pages, child.scan.table.oid, child.CurrentView(), filter, old(child.scan.rid), child.scan.rid, r.value)
        && |Ahead(rows, child.scan.rid)| < |Ahead(rows, old(child.scan.rid))|
    {
      ghost var c, ps, oid, w := child.scan.rid, child.scan.table.store.pages, child.scan.table.oid, child.CurrentView();
      HaltedBetween(ps0, ps, oid, w, filter, newBytes, c, olds, news);
      r := child.NextMatch(filter);
      if r.Ok? {
        ToUpdate(ps0, ps, oid, child.scan.table.pageCount, w, filter, newBytes, c, child.scan.rid, olds, news, rows, r.value);
      }
    }

    // The row the scan has just found, from the cursor position `c` on.
    method ReplaceFound(rid: Rid, ghost c: Rid, ghost ps0: PageMap, ghost olds: seq<Rid>, ghost news: seq<Rid>, ghost k: nat)
      returns (r: Result<seq<Rid>>, ghost last: seq<Rid>)
      requires Valid() && child.scan.table.Room(2 * k + 2)
      requires Progress(ps0, child.scan.table.store.pages, child.scan.table.oid, child.CurrentView(), filter, newBytes, c, olds, news)
      requires HasRow(child.scan.table.store.pages, child.scan.table.oid, rid) && !Before(rid, c)
      requires Matches(At(child.scan.table.store.pages, Loc(child.scan.table.oid, rid)), child.CurrentView(), filter)
      requires NoMatch(child.scan.table.store.pages, child.scan.table.oid, child.CurrentView(), filter, c, rid)
      requires child.scan.rid == Succ(child.scan.table.store.pages, child.scan.table.oid, rid)
      modifies child.scan.table, child.lockManager, child.scan.table.store, child.scan.table.logManager
      ensures Valid() && Keeps(old(child.lockManager.lockMap), child.lockManager.lockMap, child.xid)
      ensures r.Err? ==>
        Halted(ps0, child.scan.table.store.pages, child.scan.table.oid, child.CurrentView(), filter, newBytes, olds, news, last)
      ensures r.Err? ==>
        Contended(child.lockManager.lockMap, child.xid, child.scan.table.oid)
        || TooLarge(ps0, child.scan.table.oid, child.CurrentView(), filter, newBytes)
      ensures r.Ok? ==>
        && |r.value| == 2 && (forall q :: q in r.value ==> Alone(child.lockManager.lockMap, child.xid, child.scan.table.oid, q))
        && Progress(ps0, child.scan.table.store.pages, child.scan.table.oid, child.CurrentView(), filter, newBytes,
                    child.scan.rid, olds + [r.value[0]], news + [r.value[1]])
        && child.scan.table.Room(2 * k)
    {
      ghost var ps, oid, w, n := child.scan.table.store.pages, child.scan.table.oid, child.CurrentView(), child.scan.table.pageCount;
      FoundIsOld(ps0, ps, oid, w, filter, newBytes, c, olds, news, rid);
      r, last := LockAndReplace(rid);
      RoundDone(ps0, ps, child.scan.table.store.pages, oid, n, w, filter, newBytes, c, olds, news, rid, last);
    }

    // Lock the row, update it, lock the new version.
    method LockAndReplace(rid: Rid) returns (r: Result<seq<Rid>>, ghost last: seq<Rid>)
      requires Valid() && child.scan.table.Room(2) && HasRow(child.scan.table.store.pages, child.scan.table.oid, rid)
      modifies child.scan.table, child.lockManager, child.scan.table.store, child.scan.table.logManager
      ensures Valid() && Keeps(old(child.lockManager.lockMap), child.lockManager.lockMap, child.xid)
      ensures child.scan.table.logManager.nextLsn <= old(child.scan.table.logManager.nextLsn) + 800
      ensures child.scan.table.pageCount <= old(child.scan.table.pageCount) + 1
      ensures RoundLeft(old(child.scan.table.store.pages), child.scan.table.store.pages, child.scan.table.oid, rid, child.xid,
                        NewVersionOf(At(old(child.scan.table.store.pages), Loc(child.scan.table.oid, rid)), child.CurrentView(), newBytes), last)
      ensures r.Err? ==>
        Contended(child.lockManager.lockMap, child.xid, child.scan.table.oid)
        || RECORD_HEADER_SIZE + |newBytes(At(old(child.scan.table.store.pages), Loc(child.scan.table.oid, rid)))| > MAX_RECORD_SIZE
      ensures r.Ok? ==> |r.value| == 2 && r.value == last && r.value[0] == rid
      ensures r.Ok? ==> forall q :: q in r.value ==> Alone(child.lockManager.lockMap, child.xid, child.scan.table.oid, q)
    {
      var lockFlag := child.LockExclusive(rid);
      if !lockFlag {
        return Err("update lock failed!"), [];
      }
      var updated;
      updated, last := ReplaceLocked(rid);
      if updated.Err? {
        return Err(updated.error), last;
      }
      r := Ok([rid, updated.value]);
    }

    method ReplaceLocked(rid: Rid) returns (r: Result<Rid>, ghost last: seq<Rid>)
      requires Valid() && child.scan.table.Room(2) && HasRow(child.scan.table.store.pages, child.scan.table.oid, rid)
      modifies child.scan.table, child.lockManager, child.scan.table.store, child.scan.table.logManager
      ensures Valid() && Keeps(old(child.lockManager.lockMap), child.lockManager.lockMap, child.xid)
      ensures child.scan.table.logManager.nextLsn <= old(child.scan.table.logManager.nextLsn) + 800
      ensures child.scan.table.pageCount <= old(child.scan.table.pageCount) + 1
      ensures RoundLeft(old(child.scan.table.store.pages), child.scan.table.store.pages, child.scan.table.oid, rid, child.xid,
                        NewVersionOf(At(old(child.scan.table.store.pages), Loc(child.scan.table.oid, rid)), child.CurrentView(), newBytes), last)
      ensures r.Err? ==>
        Contended(child.lockManager.lockMap, child.xid, child.scan.table.oid)
        || RECORD_HEADER_SIZE + |newBytes(At(old(child.scan.table.store.pages), Loc(child.scan.table.oid, rid)))| > MAX_RECORD_SIZE
      ensures r.Ok? ==> last == [rid, r.value] && Alone(child.lockManager.lockMap, child.xid, child.scan.table.oid, r.value)
    {
      var table := child.scan.table;
      var newRecord := Version(false, NULL_XID, NULL_XID, NULL_CID, newBytes(At(table.store.pages, Loc(table.oid, rid))));
      r := Replace(rid, newRecord);
      if r.Err? {
        return r, [rid];
      }
      last := [rid, r.value];
      var lockFlag := child.LockExclusive(r.value);
      if !lockFlag {
        r := Err("update lock failed!");
      }
    }

    method Replace(rid: Rid, newRecord: Version) returns (r: Result<Rid>)
      requires Valid() && child.scan.table.Room(2) && HasRow(child.scan.table.store.pages, child.scan.table.oid, rid)
      requires newRecord.xmax == NULL_XID
      modifies child.scan.table, child.scan.table.store, child.scan.table.logManager
      ensures Valid()
      ensures child.scan.table.logManager.nextLsn <= old(child.scan.table.logManager.nextLsn) + 800
      ensures child.scan.table.pageCount <= old(child.scan.table.pageCount) + 1
      ensures r.Ok? ==>
        Replaced(old(child.scan.table.store.pages), child.scan.table.store.pages, child.scan.table.oid, rid, child.xid, r.value,
                 newRecord.(xmin := child.xid, cid := child.cid))
      ensures r.Err? ==> RecordSize(newRecord) > MAX_RECORD_SIZE
      ensures r.Err? ==>
        OnlyMarked(old(child.scan.table.store.pages), child.scan.table.store.pages, child.scan.table.oid, rid, child.xid)
    {
      var table := child.scan.table;
      r := table.UpdateRecord(rid, child.xid, child.cid, newRecord, true);
    }
  }

  lemma InsertRoom(w: Wal, x: Xid, ps: PageMap, oid: Oid, n: nat, v: Version)
    requires x in w.att && RecordSize(v) <= MAX_RECORD_SIZE
    ensures LogInserted(w, x, ps, oid, n, v).nextLsn <= w.nextLsn + 400 && x in LogInserted(w, x, ps, oid, n, v).att
  {
  }

  class InsertExecutor {
    const xid: Xid
    const cid: Cid
    const table: Table
    const lockManager: LockManager
    var finished: bool

    ghost predicate Valid()
      reads this, table, table.store, table.logManager, table.logManager.disk, lockManager
    {
      && table.Valid() && table.logManager.Valid() && AllShaped(lockManager.lockMap)
      && xid in table.logManager.att && xid < NULL_XID && xid != DDL_XID && cid < NULL_XID
    }

    constructor (xid: Xid, cid: Cid, table: Table, lockManager: LockManager)
      ensures this.xid == xid && this.cid == cid && this.table == table && this.lockManager == lockManager && !finished
    {
      this.xid, this.cid, this.table, this.lockManager, finished := xid, cid, table, lockManager, false;
    }

    /** Insert the given rows one after the other, each under an IX lock on the
        table and an X lock on itself. */
    method Next(rows: seq<seq<byte>>) returns (r: Result<Option<nat>>, ghost news: seq<Rid>)
      requires Valid() && table.Room(|rows|)
      modifies this, table, lockManager, table.store, table.logManager
      ensures Valid()
      ensures old(finished) ==> r == Ok(None) && table.store.pages == old(table.store.pages)
      ensures !old(finished) && r.Ok? ==> finished && r.value == Some(|rows|) && |news| == |rows|
      ensures Added(old(table.store.pages), table.store.pages, table.oid, View(xid, READ_COMMITTED, cid, {}), rows, news)
      ensures r.Ok? ==> AllAlone(lockManager.lockMap, xid, table.oid, news)
      ensures r.Err? ==>
        Contended(lockManager.lockMap, xid, table.oid) || exists i :: 0 <= i < |rows| && RECORD_HEADER_SIZE + |rows[i]| > MAX_RECORD_SIZE
    {
      news := [];
      if finished {
        return Ok(None), [];
      }
      ghost var ps0, w := table.store.pages, View(xid, READ_COMMITTED, cid, {});
      var count := 0;
      while count < |rows|
        invariant count <= |rows| && |news| == count && Valid() && table.Room(|rows| - count)
        invariant Added(ps0, table.store.pages, table.oid, w, rows, news)
        invariant AllAlone(lockManager.lockMap, xid, table.oid, news)
      {
        var done;
        done, news := InsertTurn(rows[count], ps0, w, rows, news);
        if done.Err? {
          return Err(done.error), news;
        }
        count := count + 1;
      }
      finished := true;
      r := Ok(Some(count));
    }

    // One row under its locks.
    method InsertTurn(payload: seq<byte>, ghost ps0: PageMap, ghost w: View, ghost rows: seq<seq<byte>>, ghost news: seq<Rid>)
      returns (r: Result<()>, ghost news': seq<Rid>)
      requires Valid() && table.Room(1) && w.xid == xid && w.cid == cid && |news| < |rows| && rows[|news|] == payload
      requires Added(ps0, table.store.pages, table.oid, w, rows, news) && AllAlone(lockManager.lockMap, xid, table.oid, news)
      modifies table, lockManager, table.store, table.logManager
      ensures Valid() && table.logManager.nextLsn <= old(table.logManager.nextLsn) + 400
      ensures table.pageCount <= old(table.pageCount) + 1
      ensures Added(ps0, table.store.pages, table.oid, w, rows, news')
      ensures r.Ok? ==> |news'| == |news| + 1 && AllAlone(lockManager.lockMap, xid, table.oid, news')
      ensures r.Err? ==> Contended(lockManager.lockMap, xid, table.oid) || RECORD_HEADER_SIZE + |payload| > MAX_RECORD_SIZE
    {
      news' := news;
      ghost var m := lockManager.lockMap;
      var tableLockFlag := LockTableIx();
      if !tableLockFlag {
        return Err("insert table lock failed!"), news;
      }
      StillAlone(m, lockManager.lockMap, xid, table.oid, news);
      var rid := InsertOne(payload, ps0, w, rows, news);
      if rid.Err? {
        return Err(rid.error), news;
      }
      news' := news + [rid.value];
      m := lockManager.lockMap;
      var lockFlag := LockNewRow(rid.value);
      if !lockFlag {
        return Err("insert lock failed!"), news';
      }
      OneMoreAlone(m, lockManager.lockMap, xid, table.oid, news, rid.value);
      r := Ok(());
    }

    method LockTableIx() returns (lockFlag: bool)
      requires AllShaped(lockManager.lockMap)
      modifies lockManager
      ensures Keeps(old(lockManager.lockMap), lockManager.lockMap, xid)
      ensures lockFlag <==> LockTableOk(old(lockManager.lockMap), xid, IX, table.oid)
      ensures !lockFlag ==> Contended(lockManager.lockMap, xid, table.oid)
    {
      if !LockTableOk(lockManager.lockMap, xid, IX, table.oid) { TableRefused(lockManager.lockMap, xid, IX, table.oid); }
      TableRequestKeeps(lockManager.lockMap, xid, IX, table.oid);
      lockFlag := lockManager.LockTable(xid, IX, table.oid);
    }

    method LockNewRow(rid: Rid) returns (lockFlag: bool)
      requires AllShaped(lockManager.lockMap)
      modifies lockManager
      ensures Keeps(old(lockManager.lockMap), lockManager.lockMap, xid)
      ensures lockFlag ==> Alone(lockManager.lockMap, xid, table.oid, rid)
      ensures !lockFlag ==> Contended(lockManager.lockMap, xid, table.oid)
    {
      RowRequestKeeps(lockManager.lockMap, xid, table.oid, rid);
      if LockRowOk(lockManager.lockMap, xid, X, table.oid, rid) {
        GrantedAlone(lockManager.lockMap, xid, table.oid, rid);
      } else {
        RowRefused(lockManager.lockMap, xid, X, table.oid, rid);
      }
      lockFlag := lockManager.LockRow(xid, X, table.oid, rid);
    }

    method InsertOne(payload: seq<byte>, ghost ps0: PageMap, ghost w: View, ghost rows: seq<seq<byte>>, ghost news: seq<Rid>)
      returns (r: Result<Rid>)
      requires Valid() && table.Room(1) && w.xid == xid && w.cid == cid && |news| < |rows| && rows[|news|] == payload
      requires Added(ps0, table.store.pages, table.oid, w, rows, news)
      modifies table, table.store, table.logManager
      ensures Valid() && table.logManager.nextLsn <= old(table.logManager.nextLsn) + 400
      ensures table.pageCount <= old(table.pageCount) + 1
      ensures r.Ok? ==> Added(ps0, table.store.pages, table.oid, w, rows, news + [r.value])
      ensures r.Err? ==> Added(ps0, table.store.pages, table.oid, w, rows, news) && RECORD_HEADER_SIZE + |payload| > MAX_RECORD_SIZE
    {
      ghost var ps, wal, n := table.store.pages, table.logManager.w, table.pageCount;
      ghost var v := Version(false, xid, NULL_XID, cid, payload);
      r := table.InsertRecord(Version(false, NULL_XID, NULL_XID, NULL_CID, payload), xid, cid, true);
      if r.Ok? {
        InsertedOne(ps0, ps, table.oid, w, rows, news, wal, n, v);
        InsertRoom(wal, xid, ps, table.oid, n, v);
      }
    }
  }
}
