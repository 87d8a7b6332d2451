/** The invariant every operation of the engine keeps. */
module EngineInv {
  import opened Types
  import opened Locks
  import opened Visibility
  import opened Transactions
  import opened Pages
  import opened Wal
  import opened Replay
  import opened Engine
  import LockSafety

  function A(s: Engine): set<Xid> { Active(s.tm) }

  // ---- the parts ----------------------------------------------------------

  /** One set of live transactions in every table. */
  ghost predicate TxOk(s: Engine) {
    && TmInv(s.tm)
    && s.wal.att.Keys == A(s)
    && (forall x :: x in s.cmd ==> x in A(s) && s.cmd[x] < s.tm.cids[x])
  }

  ghost predicate LogXidsOk(s: Engine) {
    && WalInv(s.wal)
    && InsertFirst(s.wal.log)
    && (forall k :: k in s.cur ==> s.cur[k].lsn < s.wal.nextLsn)
    && (forall i :: 0 <= i < |s.wal.log| && !IsCheckpoint(s.wal.log[i]) ==> s.wal.log[i].xid < s.tm.nextXid)
    && (forall i :: 0 <= i < |s.wal.log| && IsRowRec(s.wal.log[i]) ==> HasLoc(s.cur, LocOfRec(s.wal.log[i])))
  }

  // Row locks are only ever recorded on existing rows.
  predicate LockOnRow(s: Engine, y: Xid, l: Loc) {
    RowMode(s.locks, y, l.oid, l.rid).Some? ==> HasLoc(s.cur, l)
  }

  ghost predicate LocksOk(s: Engine) {
    && AllShaped(s.locks)
    && (forall y, l :: LockOnRow(s, y, l))
  }

  /** A version's inserter and deleter: an unfinished inserter is the only one
      who may have deleted it, an unfinished deleter has the row locked X. */
  predicate VerOk(s: Engine, l: Loc) {
    HasLoc(s.cur, l) ==>
      var v := At(s.cur, l);
      && Settled(v, s.tm.nextXid)
      && (v.xmin in A(s) ==> (v.xmax == NULL_XID || v.xmax == v.xmin) && v.xmin in s.cmd && v.cid <= s.cmd[v.xmin])
      && (v.xmax in A(s) ==> RowMode(s.locks, v.xmax, l.oid, l.rid) == Some(X))
  }

  /** For live transactions the log and the version headers tell the same. */
  ghost predicate LinkOk(s: Engine, x: Xid, l: Loc) {
    x in A(s) && HasLoc(s.cur, l) ==>
      && (At(s.cur, l).xmin == x <==> InsertedBy(s.wal.log, |s.wal.log|, x, l))
      && (At(s.cur, l).xmax == x <==> DeletedBy(s.wal.log, |s.wal.log|, x, l))
  }

  ghost predicate VersionsOk(s: Engine) {
    && (forall l :: VerOk(s, l))
    && (forall x, l :: LinkOk(s, x, l))
  }

  // ---- logical rows -------------------------------------------------------

  // A version outside its row's chain was inserted by a transaction that rolled back.
  predicate Dead(s: Engine, v: Version) {
    v.xmin == v.xmax && v.xmin !in A(s)
  }

  ghost predicate RowOfOk(s: Engine, l: Loc) {
    && (l in s.rowOf <==> HasLoc(s.cur, l))
    && (l in s.chains ==> l in s.rowOf)
    && (l in s.rowOf ==> s.rowOf[l] in s.chains && (l in s.chains[s.rowOf[l]] || Dead(s, At(s.cur, l))))
  }

  /** Each version's deleter inserted the next one, and only the newest
      versions can be unfinished, all by one transaction. */
  predicate Linked(s: Engine, a: Loc, b: Loc) {
    && HasLoc(s.cur, a) && HasLoc(s.cur, b)
    && At(s.cur, a).xmax == At(s.cur, b).xmin
    && (At(s.cur, a).xmin == At(s.cur, b).xmin || At(s.cur, a).xmin !in A(s))
  }

  ghost predicate ChainOk(s: Engine, r: Loc) {
    r in s.chains ==>
      var c := s.chains[r];
      && (forall i :: 0 <= i < |c| ==> HasLoc(s.cur, c[i]) && c[i] in s.rowOf && s.rowOf[c[i]] == r)
      && (forall i, j :: 0 <= i < j < |c| ==> c[i] != c[j])
      && (forall i :: 0 <= i < |c| - 1 ==> Linked(s, c[i], c[i + 1]))
  }

  ghost predicate RowsOk(s: Engine) {
    && (forall l :: RowOfOk(s, l))
    && (forall r :: ChainOk(s, r))
  }

  ghost predicate Inv(s: Engine) {
    && TxOk(s)
    && LogXidsOk(s)
    && LocksOk(s)
    && VersionsOk(s)
    && RowsOk(s)
  }

  // ---- lock requests ------------------------------------------------------

  // A lock map that differs from the engine's by one transaction's requests.
  ghost predicate OnlyGrew(s: Engine, m: LockMap, x: Xid) {
    && AllShaped(m)
    && (forall y, l: Loc :: RowMode(m, y, l.oid, l.rid).Some? ==> HasLoc(s.cur, l))
    && (forall y, l: Loc :: RowMode(s.locks, y, l.oid, l.rid) == Some(X) ==> RowMode(m, y, l.oid, l.rid) == Some(X))
  }

  lemma WithLocksInv(s: Engine, m: LockMap, x: Xid)
    requires Inv(s) && OnlyGrew(s, m, x)
    ensures Inv(WithLocks(s, m))
  {
    var s' := WithLocks(s, m);
    forall y, l ensures LockOnRow(s', y, l) {}
    forall l ensures VerOk(s', l) { assert VerOk(s, l); }
    forall y, l ensures LinkOk(s', y, l) { assert LinkOk(s, y, l); }
    forall l ensures RowOfOk(s', l) { assert RowOfOk(s, l); }
    forall r ensures ChainOk(s', r) {
      assert ChainOk(s, r);
      if r in s.chains {
        var c := s.chains[r];
        forall i | 0 <= i < |c| - 1 ensures Linked(s', c[i], c[i + 1]) { assert Linked(s, c[i], c[i + 1]); }
      }
    }
  }

  lemma TableReqGrew(s: Engine, x: Xid, m: LockType, oid: Oid)
    requires LocksOk(s) && TableRequest(m)
    ensures OnlyGrew(s, AfterLockTable(s.locks, x, m, oid), x)
  {
    var m' := AfterLockTable(s.locks, x, m, oid);
    LockSafety.HeldShaped(s.locks, x);
    RecordTableShape(Held(s.locks, x), m, oid);
    forall y, l: Loc ensures RowMode(m', y, l.oid, l.rid) == RowMode(s.locks, y, l.oid, l.rid) {
      LockSafety.TableReqModes(s.locks, x, m, oid, y, l.oid, l.rid);
    }
    forall y, l: Loc | RowMode(m', y, l.oid, l.rid).Some? ensures HasLoc(s.cur, l) {
      assert LockOnRow(s, y, l);
    }
  }

  lemma RowReqGrew(s: Engine, x: Xid, m: LockType, l: Loc)
    requires LocksOk(s) && RowRequest(m) && HasLoc(s.cur, l)
    ensures OnlyGrew(s, AfterLockRow(s.locks, x, m, l.oid, l.rid), x)
    ensures m == X ==> RowMode(AfterLockRow(s.locks, x, m, l.oid, l.rid), x, l.oid, l.rid) == Some(X)
  {
    var m' := AfterLockRow(s.locks, x, m, l.oid, l.rid);
    LockSafety.HeldShaped(s.locks, x);
    RecordRowShape(Held(s.locks, x), m, l.oid, l.rid);
    forall y, k: Loc ensures
      RowMode(m', y, k.oid, k.rid) ==
        (if y == x && k == l then Some(Joined(RowMode(s.locks, x, l.oid, l.rid), m)) else RowMode(s.locks, y, k.oid, k.rid))
    {
      LockSafety.RowReqModes(s.locks, x, m, l.oid, l.rid, y, k.oid, k.rid);
    }
    forall y, k: Loc | RowMode(m', y, k.oid, k.rid).Some? ensures HasLoc(s.cur, k) {
      assert LockOnRow(s, y, k);
    }
    assert RowMode(m', x, l.oid, l.rid) == Some(Joined(RowMode(s.locks, x, l.oid, l.rid), m));
    ShapeModes(Held(s.locks, x), l.oid, l.rid);
  }

  lemma TableReqInv(s: Engine, x: Xid, m: LockType, oid: Oid)
    requires Inv(s) && TableRequest(m)
    ensures Inv(WithLocks(s, AfterLockTable(s.locks, x, m, oid)))
  {
    TableReqGrew(s, x, m, oid);
    WithLocksInv(s, AfterLockTable(s.locks, x, m, oid), x);
  }

  lemma RowReqInv(s: Engine, x: Xid, m: LockType, l: Loc)
    requires Inv(s) && RowRequest(m) && HasLoc(s.cur, l)
    ensures Inv(WithLocks(s, AfterLockRow(s.locks, x, m, l.oid, l.rid)))
  {
    RowReqGrew(s, x, m, l);
    WithLocksInv(s, AfterLockRow(s.locks, x, m, l.oid, l.rid), x);
  }

  /** While one transaction has X recorded on a row, every row request of
      another is refused. */
  lemma ExclusiveRefuses(m: LockMap, x: Xid, y: Xid, l: Loc)
    requires y != x && RowMode(m, y, l.oid, l.rid) == Some(X)
    ensures forall t :: !LockRowOk(m, x, t, l.oid, l.rid)
  {
    var k := RowModeWitness(Held(m, y), |Held(m, y)|, l.oid, l.rid);
    assert IsRow(m[y][k], l.oid, l.rid);
  }

  // ---- first writer wins --------------------------------------------------

  /** When the executor goes on to change a row at READ COMMITTED or
      SERIALIZABLE, nobody has deleted the version, its inserter is the writer
      or has ended, and the writer holds the row lock. */
  lemma FirstWriter(s: Engine, x: Xid, iso: Isolation, l: Loc)
    requires Inv(s) && Running(s, x) && HasLoc(s.cur, l) && iso != REPEATABLE_READ
    requires ScanAndLock(s, x, iso, l).1
    ensures At(s.cur, l).xmax == NULL_XID
    ensures Sees(x, A(s), At(s.cur, l).xmin)
    ensures !OwnCommand(At(s.cur, l), x, s.cmd[x])
    ensures Inv(ScanAndLock(s, x, iso, l).0)
    ensures RowMode(ScanAndLock(s, x, iso, l).0.locks, x, l.oid, l.rid) == Some(X)
  {
    var v := At(s.cur, l);
    ReadCommittedMeaning(v, x, s.cmd[x], A(s));
    SerializableIsReadCommitted(v, x, s.cmd[x], A(s));
    var m1 := AfterLockTable(s.locks, x, IS, l.oid);
    TableReqInv(s, x, IS, l.oid);
    var s1 := WithLocks(s, m1);
    RowReqInv(s1, x, X, l);
    RowReqGrew(s1, x, X, l);
    if v.xmax != NULL_XID {
      assert VerOk(s1, l);
      ExclusiveRefuses(m1, x, v.xmax, l);
    }
  }
}
