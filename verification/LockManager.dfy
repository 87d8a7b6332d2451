/** The lock manager: a request is recorded first and checked afterwards, so a
    refused request stays in the caller's list. */
module LockManagers {
  import opened Types
  import opened Locks

  class LockManager {
    var lockMap: LockMap

    constructor ()
      ensures lockMap == map[]
    {
      lockMap := map[];
    }

    method LockTable(xid: Xid, lockType: LockType, oid: Oid) returns (ok: bool)
      modifies this
      ensures lockMap == AfterLockTable(old(lockMap), xid, lockType, oid)
      ensures ok <==> LockTableOk(old(lockMap), xid, lockType, oid)
      ensures TableMode(lockMap, xid, oid).Some? && OthersHold(old(lockMap), lockMap, xid)
      ensures TableRequest(lockType) ==> LeastOver(TableMode(old(lockMap), xid, oid), lockType, TableMode(lockMap, xid, oid).value)
      ensures ok <==> forall y :: y in old(lockMap) && y != xid ==> !BarsTable(old(lockMap)[y], oid, TableMode(lockMap, xid, oid).value)
    {
      TableRequestMeaning(lockMap, xid, lockType, oid);
      var now := RecordTableLock(xid, lockType, oid);
      OthersUntouched(old(lockMap), lockMap, xid);
      ok := CheckOthers(xid, oid, now, None, IS);
    }

    // The caller's entry for the table is upgraded, or made.
    method RecordTableLock(xid: Xid, lockType: LockType, oid: Oid) returns (now: LockType)
      modifies this
      ensures lockMap == AfterLockTable(old(lockMap), xid, lockType, oid)
      ensures now == Joined(TableMode(old(lockMap), xid, oid), lockType)
    {
      var existTable := false;
      var tableLocks := Held(lockMap, xid);
      lockMap := lockMap[xid := tableLocks];
      now := lockType;
      var idx := 0;
      while idx < |tableLocks|
        invariant 0 <= idx <= |tableLocks|
        invariant xid in lockMap && |lockMap[xid]| == |tableLocks| && lockMap == old(lockMap)[xid := lockMap[xid]]
        invariant forall k :: 0 <= k < idx ==> lockMap[xid][k] == TableUpgraded(tableLocks[k], lockType, oid)
        invariant forall k :: idx <= k < |tableLocks| ==> lockMap[xid][k] == tableLocks[k]
        invariant existTable <==> TableModeTo(tableLocks, idx, oid).Some?
        invariant now == Joined(TableModeTo(tableLocks, idx, oid), lockType)
      {
        var it := tableLocks[idx];
        if it.gran == TABLE && oid == it.oid {
          existTable := true;
          it := it.(mode := Upgrade(it.mode, lockType));
          lockMap := lockMap[xid := lockMap[xid][idx := it]];
          now := it.mode;
        }
        idx := idx + 1;
      }
      TableModeNone(tableLocks, idx, oid);
      assert lockMap[xid] == UpgradeTable(tableLocks, lockType, oid);
      if !existTable {
        assert lockMap[xid] == tableLocks;
        lockMap := lockMap[xid := lockMap[xid] + [Lock(TABLE, lockType, oid, NO_RID)]];
        now := lockType;
      }
    }

    method LockRow(xid: Xid, lockType: LockType, oid: Oid, rid: Rid) returns (ok: bool)
      modifies this
      ensures lockMap == AfterLockRow(old(lockMap), xid, lockType, oid, rid)
      ensures ok <==> LockRowOk(old(lockMap), xid, lockType, oid, rid)
      ensures TableMode(lockMap, xid, oid).Some? && RowMode(lockMap, xid, oid, rid).Some? && OthersHold(old(lockMap), lockMap, xid)
      ensures LeastOver(TableMode(old(lockMap), xid, oid), if lockType == S then IS else IX, TableMode(lockMap, xid, oid).value)
      ensures TableRequest(lockType) ==> LeastOver(RowMode(old(lockMap), xid, oid, rid), lockType, RowMode(lockMap, xid, oid, rid).value)
      ensures ok <==> forall y :: y in old(lockMap) && y != xid ==>
        && !BarsTable(old(lockMap)[y], oid, TableMode(lockMap, xid, oid).value)
        && !BarsRow(old(lockMap)[y], oid, rid, RowMode(lockMap, xid, oid, rid).value)
    {
      RowRequestMeaning(lockMap, xid, lockType, oid, rid);
      var tableNow, rowNow := RecordRowLock(xid, lockType, oid, rid);
      OthersUntouched(old(lockMap), lockMap, xid);
      ok := CheckOthers(xid, oid, tableNow, Some(rid), rowNow);
    }

    // The caller's entries for the row and its table are upgraded, or made.
    method RecordRowLock(xid: Xid, lockType: LockType, oid: Oid, rid: Rid) returns (tableNow: LockType, rowNow: LockType)
      modifies this
      ensures lockMap == AfterLockRow(old(lockMap), xid, lockType, oid, rid)
      ensures tableNow == Joined(TableMode(old(lockMap), xid, oid), Intention(lockType))
      ensures rowNow == Joined(RowMode(old(lockMap), xid, oid, rid), lockType)
    {
      var locks := Held(lockMap, xid);
      lockMap := lockMap[xid := locks];
      var upgradeType := Intention(lockType);
      var existTable, existRow;
      existTable, tableNow, existRow, rowNow := UpgradeRecorded(xid, lockType, oid, rid);
      RecordedInOnePass(locks, lockMap[xid], lockType, oid, rid);
      var entries := lockMap[xid];
      if !existRow {
        entries := entries + [Lock(ROW, lockType, oid, rid)];
        rowNow := lockType;
      }
      if !existTable {
        entries := entries + [Lock(TABLE, upgradeType, oid, NO_RID)];
        tableNow := upgradeType;
      }
      assert entries == RecordRowAndTable(locks, lockType, oid, rid);
      lockMap := lockMap[xid := entries];
    }

    // The loop of LockRow that upgrades the caller's matching entries in place.
    method UpgradeRecorded(xid: Xid, lockType: LockType, oid: Oid, rid: Rid)
      returns (existTable: bool, tableNow: LockType, existRow: bool, rowNow: LockType)
      requires xid in lockMap
      modifies this
      ensures xid in lockMap && lockMap == old(lockMap)[xid := lockMap[xid]]
      ensures |lockMap[xid]| == |old(lockMap)[xid]|
      ensures forall k :: 0 <= k < |lockMap[xid]| ==> lockMap[xid][k] == BothUpgraded(old(lockMap)[xid][k], lockType, oid, rid)
      ensures existTable <==> TableModeIn(old(lockMap)[xid], oid).Some?
      ensures tableNow == Joined(TableModeIn(old(lockMap)[xid], oid), Intention(lockType))
      ensures existRow <==> RowModeIn(old(lockMap)[xid], oid, rid).Some?
      ensures rowNow == Joined(RowModeIn(old(lockMap)[xid], oid, rid), lockType)
    {
      var locks := lockMap[xid];
      var upgradeType := Intention(lockType);
      existTable, existRow, tableNow, rowNow := false, false, upgradeType, lockType;
      var idx := 0;
      while idx < |locks|
        invariant 0 <= idx <= |locks|
        invariant xid in lockMap && |lockMap[xid]| == |locks| && lockMap == old(lockMap)[xid := lockMap[xid]]
        invariant forall k :: 0 <= k < idx ==> lockMap[xid][k] == BothUpgraded(locks[k], lockType, oid, rid)
        invariant forall k :: idx <= k < |locks| ==> lockMap[xid][k] == locks[k]
        invariant existTable <==> TableModeTo(locks, idx, oid).Some?
        invariant tableNow == Joined(TableModeTo(locks, idx, oid), upgradeType)
        invariant existRow <==> RowModeTo(locks, idx, oid, rid).Some?
        invariant rowNow == Joined(RowModeTo(locks, idx, oid, rid), lockType)
      {
        var it := locks[idx];
        if it.gran == TABLE && oid == it.oid {
          existTable := true;
          it := it.(mode := Upgrade(it.mode, upgradeType));
          lockMap := lockMap[xid := lockMap[xid][idx := it]];
          tableNow := it.mode;
        } else if it.gran == ROW && it.oid == oid && it.rid.page == rid.page && it.rid.slot == rid.slot {
          existRow := true;
          it := it.(mode := Upgrade(it.mode, lockType));
          rowNow := it.mode;
          lockMap := lockMap[xid := lockMap[xid][idx := it]];
        }
        idx := idx + 1;
      }
    }

    // The loop over every other transaction's list that ends both requests.
    method CheckOthers(xid: Xid, oid: Oid, tableNow: LockType, rid: Option<Rid>, rowNow: LockType) returns (ok: bool)
      ensures ok <==> forall y :: y in lockMap && y != xid ==>
        TableOk(lockMap[y], oid, tableNow) && (rid.Some? ==> RowOk(lockMap[y], oid, rid.value, rowNow))
    {
      var xids := lockMap.Keys;
      while xids != {}
        invariant xids <= lockMap.Keys
        invariant forall y :: y in lockMap && y != xid && y !in xids ==>
          TableOk(lockMap[y], oid, tableNow) && (rid.Some? ==> RowOk(lockMap[y], oid, rid.value, rowNow))
        decreases xids
      {
        var y :| y in xids;
        xids := xids - {y};
        var allLocks := lockMap[y];
        if y != xid {
          var i := 0;
          while i < |allLocks|
            invariant 0 <= i <= |allLocks|
            invariant forall k :: 0 <= k < i && IsTable(allLocks[k], oid) ==> Compatible(allLocks[k].mode, tableNow)
            invariant rid.Some? ==> forall k :: 0 <= k < i && IsRow(allLocks[k], oid, rid.value) ==>
              Compatible(allLocks[k].mode, rowNow)
          {
            var it := allLocks[i];
            if it.gran == TABLE && oid == it.oid {
              if !Compatible(it.mode, tableNow) {
                return false;
              }
            } else if rid.Some? && it.gran == ROW && it.oid == oid && it.rid == rid.value {
              if !Compatible(it.mode, rowNow) {
                return false;
              }
            }
            i := i + 1;
          }
        }
      }
      return true;
    }

    method ReleaseLocks(xid: Xid)
      modifies this
      ensures lockMap == AfterRelease(old(lockMap), xid)
      ensures HoldsNothing(lockMap, xid) && OthersHold(old(lockMap), lockMap, xid)
    {
      ReleaseForgets(lockMap, xid);
      lockMap := lockMap[xid := Held(lockMap, xid)];
      if lockMap[xid] != [] {
        lockMap := lockMap[xid := []];
      }
    }
  }

  lemma OthersUntouched(m: LockMap, m': LockMap, xid: Xid)
    requires xid in m' && m' == m[xid := m'[xid]]
    ensures forall y :: y in m' && y != xid ==> y in m && m[y] == m'[y]
    ensures forall y :: y in m && y != xid ==> y in m' && m[y] == m'[y]
  {
  }

  // One pass of LockRow over an entry.
  function BothUpgraded(l: Lock, m: LockType, oid: Oid, rid: Rid): Lock {
    if IsRow(l, oid, rid) then RowUpgraded(l, m, oid, rid) else TableUpgraded(l, Intention(m), oid)
  }

  // LockRow upgrades row and table entries in one pass and appends what is
  // missing; the specification records the row first and the table second.
  lemma RecordedInOnePass(ls: seq<Lock>, up: seq<Lock>, m: LockType, oid: Oid, rid: Rid)
    requires |up| == |ls| && forall k :: 0 <= k < |ls| ==> up[k] == BothUpgraded(ls[k], m, oid, rid)
    ensures RecordRowAndTable(ls, m, oid, rid) == up
      + (if RowModeIn(ls, oid, rid).Some? then [] else [Lock(ROW, m, oid, rid)])
      + (if TableModeIn(ls, oid).Some? then [] else [Lock(TABLE, Intention(m), oid, NO_RID)])
  {
    var r := RecordRow(ls, m, oid, rid);
    TableModeNone(ls, |ls|, oid);
    TableModeNone(r, |r|, oid);
    RowModeNone(ls, |ls|, oid, rid);
    assert forall i :: 0 <= i < |ls| ==> (IsTable(r[i], oid) <==> IsTable(ls[i], oid));
    var row := if RowModeIn(ls, oid, rid).Some? then [] else [Lock(ROW, m, oid, rid)];
    assert UpgradeTable(r, Intention(m), oid) == up + row;
    if TableModeIn(ls, oid).None? {
      assert r == up + row;
    }
  }
}
