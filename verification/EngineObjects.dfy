/** The engine's row operations are what the table and scan objects do. */
module EngineObjects {
  import opened Types
  import opened Visibility
  import opened Transactions
  import opened Pages
  import opened Wal
  import opened Engine
  import TableChain
  import Tables
  import TableScans
  import Locks
  import Executors

  /** Deleting a row of the engine is Table::DeleteRecord: same pages, same log. */
  lemma DeleteIsTable(s: Engine, x: Xid, l: Loc)
    requires x in s.wal.att && HasLoc(s.cur, l)
    ensures DoDelete(s, x, l).cur == Tables.AfterDelete(s.cur, s.wal, x, l, true)
    ensures DoDelete(s, x, l).wal == Tables.LogAfterDelete(s.wal, x, l, true)
  {
  }

  /** Inserting into page `k` of the engine is Table::InsertRecord whenever `k`
      is the first page of its chain with room. */
  lemma InsertIsTable(s: Engine, x: Xid, k: PageKey, payload: seq<byte>, row: Loc, n: nat)
    requires x in s.wal.att && x in s.cmd && Fits(s, k, payload)
    requires k.page < n && k.page == TableChain.FirstFit(s.cur, k.oid, n, RECORD_HEADER_SIZE + |payload|, 0)
    ensures var v := NewVersion(s, x, payload);
      && DoInsert(s, x, k, payload, row).cur == Tables.AfterInsert(s.cur, s.wal, x, k.oid, n, v, true)
      && DoInsert(s, x, k, payload, row).wal == Tables.LogAfterInsert(s.cur, s.wal, x, k.oid, n, v, true)
      && NextLoc(s.cur, k) == Loc(k.oid, TableChain.Place(s.cur, k.oid, n, RecordSize(v)))
  {
    var v := NewVersion(s, x, payload);
    assert TableChain.InsertedInto(s.cur, k.oid, n, v) == Append(s.cur, k, v);
  }

  // What a statement of `x` sees in the state `s`.
  function ViewOf(s: Engine, x: Xid, iso: Isolation): TableScans.View
    requires Running(s, x)
  {
    TableScans.View(x, iso, s.cmd[x], ScanActive(s, x, iso))
  }

  lemma SeesIsScan(s: Engine, x: Xid, iso: Isolation, l: Loc)
    requires Running(s, x) && HasLoc(s.cur, l)
    ensures SeesRow(s, x, iso, l) <==> !TableScans.Skips(At(s.cur, l), ViewOf(s, x, iso))
  {
  }

  /** The cursor goes from row to row of those the engine lets a statement
      change, and misses none. */
  method NextSeen(scan: TableScans.TableScan, ghost s: Engine, x: Xid, iso: Isolation, w: TableScans.View) returns (r: Option<Rid>)
    requires scan.Valid() && scan.table.store.pages == s.cur && Running(s, x) && w == ViewOf(s, x, iso)
    modifies scan
    ensures scan.Valid()
    ensures r.Some? ==>
      && TableScans.HasRow(s.cur, scan.table.oid, r.value) && SeesRow(s, x, iso, Loc(scan.table.oid, r.value))
      && !TableScans.Before(r.value, old(scan.rid)) && TableScans.Before(r.value, scan.rid)
    ensures forall l :: TableScans.HasRow(s.cur, scan.table.oid, l) && SeesRow(s, x, iso, Loc(scan.table.oid, l)) ==>
      TableScans.Before(l, old(scan.rid)) || !TableScans.Before(l, scan.rid) || r == Some(l)
  {
    ghost var ps, oid, n := scan.table.store.pages, scan.table.oid, scan.table.pageCount;
    r := scan.GetNextRecord(w);
    if r.Some? { TableScans.SuccFacts(ps, oid, n, r.value); }
    forall l | TableScans.HasRow(s.cur, oid, l) && SeesRow(s, x, iso, Loc(oid, l))
      ensures TableScans.Before(l, old(scan.rid)) || !TableScans.Before(l, scan.rid) || r == Some(l)
    {
      SeesIsScan(s, x, iso, Loc(oid, l));
    }
  }

  /** A whole scan returns exactly the rows the engine lets a statement change,
      each once. */
  method ScanSeen(child: Executors.SeqScanExecutor, ghost s: Engine) returns (r: Result<seq<Rid>>)
    requires child.Valid() && Locks.AllShaped(child.lockManager.lockMap)
    requires Running(s, child.xid) && child.scan.table.store.pages == s.cur && child.transactionManager.State() == s.tm
    requires child.cid == s.cmd[child.xid]
    requires forall l :: TableScans.HasRow(s.cur, child.scan.table.oid, l) ==> !TableScans.Before(l, child.scan.rid)
    modifies child.scan, child.lockManager
    ensures r.Ok? ==>
      && (forall i, j :: 0 <= i < j < |r.value| ==> r.value[i] != r.value[j])
      && (forall l :: l in r.value <==>
            TableScans.HasRow(s.cur, child.scan.table.oid, l) && SeesRow(s, child.xid, child.iso, Loc(child.scan.table.oid, l)))
  {
    assert child.CurrentView() == ViewOf(s, child.xid, child.iso);
    r := child.Collect(v => true);
  }
}
