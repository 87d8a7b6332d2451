/** Which record versions a transaction sees at each isolation level. */
module Visibility {
  import opened Types

  datatype Isolation = READ_COMMITTED | REPEATABLE_READ | SERIALIZABLE

  /** True means that the scan skips the version. */
  function CanGet(v: Version, xid: Xid, cid: Cid, iso: Isolation, active: set<Xid>): bool {
    match iso
    case READ_COMMITTED =>
      if v.cid == cid && v.xmin == xid then
        true
      else if v.xmin in active && v.xmin != xid then
        true
      else if v.xmin in active && v.xmin == xid then
        if xid == v.xmax && v.xmax != NULL_XID then true
        else if v.xmax != NULL_XID && v.xmax !in active then true
        else false
      else
        if v.xmax == xid && v.xmax != NULL_XID then true
        else if v.xmax != NULL_XID && v.xmax !in active then true
        else false
    case REPEATABLE_READ =>
      if v.cid == cid && v.xmin == xid then
        true
      else if v.xmin in active && v.xmin != xid then
        true
      else if v.xmin in active && v.xmin == xid then
        if v.xmax == xid && v.xmax != NULL_XID then true else false
      else if v.xmin <= xid then
        if v.xmax == xid && v.xmax != NULL_XID then true
        else if v.xmax in active || v.xmax > xid then false
        else true
      else
        true
    case SERIALIZABLE =>
      || (v.xmin != xid && v.xmin in active)
      || v.xmax == xid
      || (v.cid == cid && v.xmin == xid)
      || (v.xmax != NULL_XID && v.xmax !in active)
  }

  predicate Visible(v: Version, xid: Xid, cid: Cid, iso: Isolation, active: set<Xid>) {
    !CanGet(v, xid, cid, iso, active)
  }

  /** The effects of transaction `y` are visible to `xid`: its own, or those of
      a transaction that has ended. */
  predicate Sees(xid: Xid, active: set<Xid>, y: Xid) {
    y == xid || y !in active
  }

  predicate SeesDelete(v: Version, xid: Xid, active: set<Xid>) {
    v.xmax != NULL_XID && Sees(xid, active, v.xmax)
  }

  predicate OwnCommand(v: Version, xid: Xid, cid: Cid) {
    v.cid == cid && v.xmin == xid
  }

  /** READ_COMMITTED: the insert is seen, the delete is not, and the version
      was not made by the running command itself. */
  lemma ReadCommittedMeaning(v: Version, xid: Xid, cid: Cid, active: set<Xid>)
    ensures Visible(v, xid, cid, READ_COMMITTED, active) <==>
      !OwnCommand(v, xid, cid) && Sees(xid, active, v.xmin) && !SeesDelete(v, xid, active)
  {
  }

  /** SERIALIZABLE decides like READ_COMMITTED for every real transaction id;
      they part exactly on undeleted versions read under the id NULL_XID. */
  lemma SerializableIsReadCommitted(v: Version, xid: Xid, cid: Cid, active: set<Xid>)
    ensures xid != NULL_XID ==>
      CanGet(v, xid, cid, SERIALIZABLE, active) == CanGet(v, xid, cid, READ_COMMITTED, active)
    ensures xid == NULL_XID ==>
      (CanGet(v, xid, cid, SERIALIZABLE, active) <==>
       v.xmax == NULL_XID || CanGet(v, xid, cid, READ_COMMITTED, active))
  {
  }

  /** The snapshot of a transaction covers `y`: it ended before the snapshot
      was taken. */
  predicate InSnapshot(xid: Xid, snapshot: set<Xid>, y: Xid) {
    y !in snapshot && y <= xid
  }

  /** REPEATABLE_READ with a snapshot taken before the reader joined the
      active set. */
  lemma RepeatableReadMeaning(v: Version, xid: Xid, cid: Cid, snapshot: set<Xid>)
    requires xid !in snapshot && xid < NULL_XID
    ensures Visible(v, xid, cid, REPEATABLE_READ, snapshot) <==>
      !OwnCommand(v, xid, cid) && InSnapshot(xid, snapshot, v.xmin) && !InSnapshot(xid, snapshot, v.xmax)
  {
  }
}
