/** Transactions as a connection sees them: in which order log, locks and
    transaction table are told. */
module Database {
  import opened Types
  import opened Bytes
  import opened Locks
  import opened LockManagers
  import opened Transactions
  import opened Pages
  import opened Wal
  import opened Replay
  import opened LogManagement

  type Connection = nat

  class DatabaseEngine {
    const transactionManager: TransactionManager
    const logManager: LogManagement.LogManager
    const store: PageStore
    var xids: map<Connection, Xid>

    /** Every connection in a transaction has its own, known to the
        transaction manager and to the log. */
    ghost predicate Valid()
      reads this, transactionManager, logManager, logManager.disk
    {
      && logManager.Valid() && TmInv(transactionManager.State())
      && (forall c :: c in xids ==> xids[c] in transactionManager.xid2cid && xids[c] in logManager.att)
      && (forall c, d :: c in xids && d in xids && c != d ==> xids[c] != xids[d])
    }

    constructor (transactionManager: TransactionManager, logManager: LogManagement.LogManager, store: PageStore)
      ensures this.transactionManager == transactionManager && this.logManager == logManager && this.store == store && xids == map[]
    {
      this.transactionManager, this.logManager, this.store := transactionManager, logManager, store;
      xids := map[];
    }

    predicate InTransaction(c: Connection)
      reads this
    {
      c in xids
    }

    /** The next id, in the transaction manager, the connection and the log.
        Losers of a recovery stay in the log's table: an id that is one of them
        makes the log refuse, when the connection already has the transaction. */
    method Begin(c: Connection) returns (r: Result<Xid>)
      requires Valid() && transactionManager.nextXid < NULL_XID && logManager.nextLsn + 13 <= NULL_LSN
      modifies this, transactionManager, logManager
      ensures Valid()
      ensures r.Ok? <==> c !in old(xids) && old(transactionManager.nextXid) !in old(logManager.att)
      ensures r.Ok? ==> r.value == old(transactionManager.nextXid)
      ensures c in old(xids) ==>
        xids == old(xids) && logManager.w == old(logManager.w) && transactionManager.State() == old(transactionManager.State())
      ensures c !in old(xids) ==>
        var x := old(transactionManager.nextXid);
        && xids == old(xids)[c := x]
        && transactionManager.State() == BeginTm(old(transactionManager.State()))
        && logManager.w == (if x in old(logManager.att) then old(logManager.w) else AppendBegin(old(logManager.w), x))
      ensures r.Ok? ==>
        && logManager.w.log == old(logManager.w.log) + [BeginLog(old(logManager.nextLsn), r.value, NULL_LSN)]
        && logManager.att == old(logManager.att)[r.value := old(logManager.nextLsn)]
    {
      if InTransaction(c) {
        return Err("There is already a transaction in progress");
      }
      TmSteps(transactionManager.State(), transactionManager.nextXid);
      var xid := transactionManager.Begin();
      xids := xids[c := xid];
      var lsn := logManager.AppendBeginLog(xid);
      if lsn.Err? {
        return Err(lsn.error);
      }
      r := Ok(xid);
    }

    /** The commit record is durable before the locks are released and the
        transaction is forgotten. */
    method Commit(c: Connection) returns (r: Result<()>)
      requires Valid() && logManager.nextLsn + 13 <= NULL_LSN
      modifies this, transactionManager, transactionManager.lockManager, logManager, logManager.disk
      ensures Valid()
      ensures r.Ok? <==> c in old(xids)
      ensures r.Ok? ==>
        var x := old(xids)[c];
        && xids == old(xids) - {c}
        && logManager.w == AppendEnd(old(logManager.w), x, true) && logManager.w.durable == |logManager.w.log|
        && transactionManager.State() == EndTm(old(transactionManager.State()), x)
        && transactionManager.lockManager.lockMap == AfterRelease(old(transactionManager.lockManager.lockMap), x)
      ensures r.Ok? ==>
        var x := old(xids)[c];
        && HoldsNothing(transactionManager.lockManager.lockMap, x)
        && OthersHold(old(transactionManager.lockManager.lockMap), transactionManager.lockManager.lockMap, x)
        && logManager.w.log == old(logManager.w.log) + [CommitLog(old(logManager.nextLsn), x, old(logManager.att)[x])]
        && logManager.att == old(logManager.att) - {x} && x !in transactionManager.xid2cid
      ensures r.Err? ==> xids == old(xids) && logManager.w == old(logManager.w)
      ensures r.Err? ==> transactionManager.lockManager.lockMap == old(transactionManager.lockManager.lockMap)
    {
      if !InTransaction(c) {
        return Err("There is no transaction in process");
      }
      EndCommit(c);
      r := Ok(());
    }

    method EndCommit(c: Connection)
      requires Valid() && logManager.nextLsn + 13 <= NULL_LSN && c in xids
      modifies this, transactionManager, transactionManager.lockManager, logManager, logManager.disk
      ensures Valid() && xids == old(xids) - {c}
      ensures logManager.w == AppendEnd(old(logManager.w), old(xids)[c], true) && logManager.w.durable == |logManager.w.log|
      ensures transactionManager.State() == EndTm(old(transactionManager.State()), old(xids)[c])
      ensures transactionManager.lockManager.lockMap == AfterRelease(old(transactionManager.lockManager.lockMap), old(xids)[c])
      ensures HoldsNothing(transactionManager.lockManager.lockMap, old(xids)[c])
      ensures OthersHold(old(transactionManager.lockManager.lockMap), transactionManager.lockManager.lockMap, old(xids)[c])
      ensures logManager.w.log == old(logManager.w.log) + [CommitLog(old(logManager.nextLsn), old(xids)[c], old(logManager.att)[old(xids)[c]])]
      ensures logManager.w.durable == |logManager.w.log| && logManager.att == old(logManager.att) - {old(xids)[c]}
    {
      var x := xids[c];
      AppendEndFacts(logManager.w, x, true);
      TmSteps(transactionManager.State(), x);
      var lsn := logManager.AppendCommitLog(x);
      var ended := transactionManager.Commit(x);
      xids := xids - {c};
    }

    /** Undo first, then the rollback record, then the locks: the changes are
        gone before anyone else may touch the rows. */
    method Rollback(c: Connection) returns (r: Result<()>)
      requires Valid() && logManager.nextLsn + 13 <= NULL_LSN && logManager.flushedLsn != NULL_LSN
      requires c in xids ==> forall q :: q in Chain(logManager.w.log, |logManager.w.log|, xids[c]) ==> !q.NewPageLog?
      modifies this, transactionManager, transactionManager.lockManager, logManager, logManager.disk, store
      ensures Valid()
      ensures r.Ok? <==> c in old(xids)
      ensures r.Ok? ==>
        var x := old(xids)[c];
        && xids == old(xids) - {c}
        && store.pages == UndoChain(old(logManager.w.log), |old(logManager.w.log)|, x, old(store.pages))
        && logManager.w == AppendEnd(old(logManager.w), x, false)
        && transactionManager.State() == EndTm(old(transactionManager.State()), x)
        && transactionManager.lockManager.lockMap == AfterRelease(old(transactionManager.lockManager.lockMap), x)
      ensures r.Ok? ==>
        var x := old(xids)[c];
        && HoldsNothing(transactionManager.lockManager.lockMap, x)
        && OthersHold(old(transactionManager.lockManager.lockMap), transactionManager.lockManager.lockMap, x)
        && logManager.w.log == old(logManager.w.log) + [RollbackLog(old(logManager.nextLsn), x, old(logManager.att)[x])]
        && logManager.w.durable == |logManager.w.log|
        && logManager.att == old(logManager.att) - {x} && x !in transactionManager.xid2cid
      ensures r.Err? ==> xids == old(xids) && logManager.w == old(logManager.w) && store.pages == old(store.pages)
      ensures r.Err? ==> transactionManager.lockManager.lockMap == old(transactionManager.lockManager.lockMap)
    {
      if !InTransaction(c) {
        return Err("There is no transaction in process");
      }
      AttIsLast(logManager.w.log, |logManager.w.log|, xids[c]);
      ghost var visited := logManager.Rollback(xids[c], store);
      EndRollback(c);
      r := Ok(());
    }

    method EndRollback(c: Connection)
      requires Valid() && logManager.nextLsn + 13 <= NULL_LSN && c in xids
      modifies this, transactionManager, transactionManager.lockManager, logManager, logManager.disk
      ensures Valid() && xids == old(xids) - {c}
      ensures logManager.w == AppendEnd(old(logManager.w), old(xids)[c], false)
      ensures transactionManager.State() == EndTm(old(transactionManager.State()), old(xids)[c])
      ensures transactionManager.lockManager.lockMap == AfterRelease(old(transactionManager.lockManager.lockMap), old(xids)[c])
      ensures HoldsNothing(transactionManager.lockManager.lockMap, old(xids)[c])
      ensures OthersHold(old(transactionManager.lockManager.lockMap), transactionManager.lockManager.lockMap, old(xids)[c])
      ensures logManager.w.log == old(logManager.w.log) + [RollbackLog(old(logManager.nextLsn), old(xids)[c], old(logManager.att)[old(xids)[c]])]
      ensures logManager.w.durable == |logManager.w.log| && logManager.att == old(logManager.att) - {old(xids)[c]}
    {
      var x := xids[c];
      AppendEndFacts(logManager.w, x, false);
      TmSteps(transactionManager.State(), x);
      var lsn := logManager.AppendRollbackLog(x);
      var ended := transactionManager.Rollback(x);
      xids := xids - {c};
    }
  }
}
