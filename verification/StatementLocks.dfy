/** What the locks a statement takes for itself are worth. */
module StatementLocks {
  import opened Types
  import opened Locks
  import LockSafety

  /** `x` has the row locked exclusively and nobody has a lock recorded on it
      that would not bear that. */
  ghost predicate Alone(m: LockMap, x: Xid, oid: Oid, r: Rid) {
    && RowMode(m, x, oid, r) == Some(X)
    && (forall y :: y in m && y != x ==> RowOk(m[y], oid, r, X))
  }

  // From `m` to `t` transaction `x` keeps every row it has for itself, and the
  // others keep what they have.
  ghost predicate Keeps(m: LockMap, t: LockMap, x: Xid) {
    AllShaped(t) && OthersHold(m, t, x) && forall oid, r :: Alone(m, x, oid, r) ==> Alone(t, x, oid, r)
  }

  /** Another transaction has a lock that really conflicts with one that `x`
      asked for, on the table or on one of its rows. */
  ghost predicate Contended(m: LockMap, x: Xid, oid: Oid) {
    exists y :: y in m && y != x && (ClashesTable(m, x, m[y], oid) || exists r :: ClashesRow(m, x, m[y], oid, r))
  }

  ghost predicate ClashesTable(m: LockMap, x: Xid, ls: seq<Lock>, oid: Oid) {
    TableMode(m, x, oid).Some? && BarsTable(ls, oid, TableMode(m, x, oid).value)
  }

  ghost predicate ClashesRow(m: LockMap, x: Xid, ls: seq<Lock>, oid: Oid, r: Rid) {
    RowMode(m, x, oid, r).Some? && BarsRow(ls, oid, r, RowMode(m, x, oid, r).value)
  }

  /** A refused request is contended. */
  lemma TableRefused(m: LockMap, x: Xid, t: LockType, oid: Oid)
    requires !LockTableOk(m, x, t, oid)
    ensures Contended(AfterLockTable(m, x, t, oid), x, oid)
  {
    var m' := AfterLockTable(m, x, t, oid);
    TableRequestMeaning(m, x, t, oid);
    var y :| y in m && y != x && BarsTable(m[y], oid, TableMode(m', x, oid).value);
    assert m'[y] == m[y] && ClashesTable(m', x, m'[y], oid);
  }

  lemma RowRefused(m: LockMap, x: Xid, t: LockType, oid: Oid, rid: Rid)
    requires !LockRowOk(m, x, t, oid, rid)
    ensures Contended(AfterLockRow(m, x, t, oid, rid), x, oid)
  {
    var m' := AfterLockRow(m, x, t, oid, rid);
    RowRequestMeaning(m, x, t, oid, rid);
    var y :| y in m && y != x && (BarsTable(m[y], oid, TableMode(m', x, oid).value) || BarsRow(m[y], oid, rid, RowMode(m', x, oid, rid).value));
    assert m'[y] == m[y];
    assert ClashesTable(m', x, m'[y], oid) || ClashesRow(m', x, m'[y], oid, rid);
  }

  lemma KeepsTwice(m: LockMap, t: LockMap, u: LockMap, x: Xid)
    requires Keeps(m, t, x) && Keeps(t, u, x)
    ensures Keeps(m, u, x)
  {
  }

  lemma TableRequestKeeps(m: LockMap, x: Xid, mode: LockType, oid: Oid)
    requires AllShaped(m) && TableRequest(mode)
    ensures Keeps(m, AfterLockTable(m, x, mode, oid), x)
  {
    var t := AfterLockTable(m, x, mode, oid);
    LockSafety.HeldShaped(m, x);
    RecordTableShape(Held(m, x), mode, oid);
    forall o, r | Alone(m, x, o, r) ensures Alone(t, x, o, r) {
      LockSafety.TableReqModes(m, x, mode, oid, x, o, r);
    }
  }

  lemma RowRequestKeeps(m: LockMap, x: Xid, oid: Oid, rid: Rid)
    requires AllShaped(m)
    ensures Keeps(m, AfterLockRow(m, x, X, oid, rid), x)
  {
    var t := AfterLockRow(m, x, X, oid, rid);
    LockSafety.HeldShaped(m, x);
    RecordRowShape(Held(m, x), X, oid, rid);
    forall o, r | Alone(m, x, o, r) ensures Alone(t, x, o, r) {
      LockSafety.RowReqModes(m, x, X, oid, rid, x, o, r);
    }
  }

  /** A granted exclusive row lock gives the row to the requester alone. */
  lemma GrantedAlone(m: LockMap, x: Xid, oid: Oid, rid: Rid)
    requires AllShaped(m) && LockRowOk(m, x, X, oid, rid)
    ensures Alone(AfterLockRow(m, x, X, oid, rid), x, oid, rid)
  {
    LockSafety.RowReqModes(m, x, X, oid, rid, x, oid, rid);
    assert Joined(RowMode(m, x, oid, rid), X) == X;
  }

  ghost predicate AllAlone(m: LockMap, x: Xid, oid: Oid, rids: seq<Rid>) {
    forall i :: 0 <= i < |rids| ==> Alone(m, x, oid, rids[i])
  }

  lemma OneMoreAlone(m: LockMap, t: LockMap, x: Xid, oid: Oid, rids: seq<Rid>, r: Rid)
    requires AllAlone(m, x, oid, rids) && Keeps(m, t, x) && Alone(t, x, oid, r)
    ensures AllAlone(t, x, oid, rids + [r])
  {
  }

  lemma StillAlone(m: LockMap, t: LockMap, x: Xid, oid: Oid, rids: seq<Rid>)
    requires AllAlone(m, x, oid, rids) && Keeps(m, t, x)
    ensures AllAlone(t, x, oid, rids)
  {
  }
}
