/** Transaction ids, command ids and snapshots. */
module Transactions {
  import opened Types
  import opened Locks
  import opened LockManagers

  /** The tables of the transaction manager as a value. */
  datatype Tm = Tm(nextXid: Xid, cids: map<Xid, Cid>, snaps: map<Xid, set<Xid>>)

  function Active(t: Tm): set<Xid> { t.cids.Keys }

  // The snapshot is taken before the new transaction joins the active set.
  function BeginTm(t: Tm): Tm {
    Tm(t.nextXid + 1, t.cids[t.nextXid := FIRST_CID], t.snaps[t.nextXid := t.cids.Keys])
  }

  function NextCommand(t: Tm, x: Xid): Tm
    requires x in t.cids
  {
    t.(cids := t.cids[x := t.cids[x] + 1])
  }

  function EndTm(t: Tm, x: Xid): Tm {
    t.(cids := t.cids - {x}, snaps := t.snaps - {x})
  }

  /** Transaction ids handed out stay below the next one; every transaction
      has a command counter and a snapshot of earlier transactions only. */
  ghost predicate TmInv(t: Tm) {
    && t.cids.Keys == t.snaps.Keys
    && t.nextXid <= NULL_XID
    && (forall x :: x in t.cids ==> x < t.nextXid)
    && (forall x, y :: x in t.snaps && y in t.snaps[x] ==> y < x)
  }

  lemma TmSteps(t: Tm, x: Xid)
    requires TmInv(t)
    ensures t.nextXid < NULL_XID ==> TmInv(BeginTm(t)) && t.nextXid !in t.cids && t.nextXid !in BeginTm(t).snaps[t.nextXid]
    ensures x in t.cids ==> TmInv(NextCommand(t, x))
    ensures TmInv(EndTm(t, x)) && Active(EndTm(t, x)) == Active(t) - {x}
  {
  }

  class TransactionManager {
    var nextXid: Xid
    var xid2cid: map<Xid, Cid>
    var xid2activeSet: map<Xid, set<Xid>>
    const lockManager: LockManager

    ghost function State(): Tm
      reads this
    {
      Tm(nextXid, xid2cid, xid2activeSet)
    }

    constructor (lockManager: LockManager, nextXid: Xid)
      ensures State() == Tm(nextXid, map[], map[])
      ensures this.lockManager == lockManager
    {
      this.lockManager := lockManager;
      this.nextXid := nextXid;
      xid2cid := map[];
      xid2activeSet := map[];
    }

    method GetCidAndIncrement(xid: Xid) returns (r: Result<Cid>)
      modifies this
      ensures r.Ok? <==> xid in old(xid2cid)
      ensures r.Ok? ==> r.value == old(xid2cid)[xid] && State() == NextCommand(old(State()), xid)
      ensures r.Ok? ==> xid2cid == old(xid2cid)[xid := r.value + 1]
      ensures r.Err? ==> State() == old(State())
    {
      if xid !in xid2cid {
        return Err("xid not found in GetCidAndIncrement");
      }
      r := Ok(xid2cid[xid]);
      xid2cid := xid2cid[xid := xid2cid[xid] + 1];
    }

    method SetNextXid(next: Xid)
      modifies this
      ensures State() == old(State()).(nextXid := if next > old(nextXid) then next else old(nextXid))
    {
      if next > nextXid {
        nextXid := next;
      }
    }

    method Begin() returns (xid: Xid)
      requires nextXid < NULL_XID
      modifies this
      ensures xid == old(nextXid) && State() == BeginTm(old(State()))
      ensures nextXid == xid + 1 && xid2cid == old(xid2cid)[xid := FIRST_CID]
      ensures xid2activeSet == old(xid2activeSet)[xid := old(xid2cid).Keys]
    {
      xid := nextXid;
      nextXid := nextXid + 1;
      var activeXids := GetActiveTransactions();
      xid2activeSet := xid2activeSet[xid := activeXids];
      xid2cid := xid2cid[xid := FIRST_CID];
    }

    method Commit(xid: Xid) returns (r: Result<()>)
      modifies this, lockManager
      ensures r.Ok? <==> xid in old(xid2cid) && xid in old(xid2activeSet)
      ensures r.Ok? ==> State() == EndTm(old(State()), xid)
      ensures r.Ok? ==> lockManager.lockMap == AfterRelease(old(lockManager.lockMap), xid)
      ensures r.Ok? ==> HoldsNothing(lockManager.lockMap, xid) && OthersHold(old(lockManager.lockMap), lockManager.lockMap, xid)
      ensures r.Ok? ==> xid2cid == old(xid2cid) - {xid} && xid2activeSet == old(xid2activeSet) - {xid} && nextXid == old(nextXid)
      ensures r.Err? ==> State() == old(State()) && lockManager.lockMap == old(lockManager.lockMap)
    {
      if xid !in xid2cid {
        return Err("xid not found in xid2cid_");
      }
      if xid !in xid2activeSet {
        return Err("xid not found in xid2active_set_");
      }
      lockManager.ReleaseLocks(xid);
      xid2cid := xid2cid - {xid};
      xid2activeSet := xid2activeSet - {xid};
      r := Ok(());
    }

    // Rolling back forgets the transaction exactly as committing does.
    method Rollback(xid: Xid) returns (r: Result<()>)
      modifies this, lockManager
      ensures r.Ok? <==> xid in old(xid2cid) && xid in old(xid2activeSet)
      ensures r.Ok? ==> State() == EndTm(old(State()), xid)
      ensures r.Ok? ==> lockManager.lockMap == AfterRelease(old(lockManager.lockMap), xid)
      ensures r.Ok? ==> HoldsNothing(lockManager.lockMap, xid) && OthersHold(old(lockManager.lockMap), lockManager.lockMap, xid)
      ensures r.Ok? ==> xid2cid == old(xid2cid) - {xid} && xid2activeSet == old(xid2activeSet) - {xid} && nextXid == old(nextXid)
      ensures r.Err? ==> State() == old(State()) && lockManager.lockMap == old(lockManager.lockMap)
    {
      if xid !in xid2cid {
        return Err("xid not found in xid2cid_");
      }
      if xid !in xid2activeSet {
        return Err("xid not found in xid2active_set_");
      }
      lockManager.ReleaseLocks(xid);
      xid2cid := xid2cid - {xid};
      xid2activeSet := xid2activeSet - {xid};
      r := Ok(());
    }

    method GetSnapshot(xid: Xid) returns (r: Result<set<Xid>>)
      ensures r.Ok? <==> xid in xid2activeSet
      ensures r.Ok? ==> r.value == xid2activeSet[xid]
    {
      if xid !in xid2activeSet {
        return Err("xid not found in xid2active_set_ in GetSnapshot");
      }
      r := Ok(xid2activeSet[xid]);
    }

    method GetActiveTransactions() returns (activeXids: set<Xid>)
      ensures activeXids == Active(State())
    {
      activeXids := {};
      var keys := xid2cid.Keys;
      while keys != {}
        invariant keys + activeXids == xid2cid.Keys
        decreases keys
      {
        var x :| x in keys;
        activeXids := activeXids + {x};
        keys := keys - {x};
      }
    }
  }
}
